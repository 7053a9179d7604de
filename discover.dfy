/**
 * Team discovery (src/discover.js): the search page's result cards are read
 * into team options — first accepted occurrence of each link wins, names go
 * through a three-step fallback and are cleaned, nameless cards are dropped,
 * at most 20 are kept — and the page yields one `team-options` record, or one
 * `error` record when nothing was found.
 */
module Discover {
  import opened Wrappers
  import opened Text
  import Indices
  import Dedup
  import Crawl

  /**
   * One `.l-grid__cell a[href*="/Competitions/Competition/"]` result card: its
   * `href` ("" when it has none), its text content, and the text of its
   * `dl.u-spacing-mb-xx-small`, `.o-lozenge` and `.club-card-content__club`
   * descendants (`None` when absent).
   */
  datatype ResultLink = ResultLink(
    href: string,
    text: string,
    nameElement: Option<string>,
    lozenge: Option<string>,
    competitionElement: Option<string>)

  /** An option offered to the user. */
  datatype TeamOption = TeamOption(name: string, url: string, competition: string, resultType: string)

  /** What the search stage pushes to the dataset. */
  datatype Record =
    | TeamOptions(options: seq<TeamOption>, selectedIndex: Option<int>)
    | NoResults(message: string, pageUrl: string, teamName: Option<string>)

  /** The rendered search page: its URL and its result cards in document order. */
  datatype SearchPage = SearchPage(url: string, links: seq<ResultLink>)

  const Host := "https://touchfootball.com.au"
  const MaxOptions := 20
  const NoResultsMessage := "No search results found"

  function Min(a: nat, b: nat): nat {
    if a <= b then a else b
  }

  /**
   * The option URL: an `href` that starts with "http" is already absolute;
   * any other is put after the site's host. Either way the URL starts with
   * "http" and ends with the `href`.
   */
  function AbsoluteUrl(href: string): (u: string)
    ensures StartsWith(u, "http")
    ensures |href| <= |u| && u[|u| - |href|..] == href
    ensures u == href <==> StartsWith(href, "http")
    ensures !StartsWith(href, "http") ==> u == Host + href
  {
    if StartsWith(href, "http") then href
    else
      var u := Host + href;
      assert u[..4] == Host[..4] == "http";
      u
  }

  /** Making a URL absolute twice changes nothing. */
  lemma AbsoluteUrlIdempotent(href: string)
    ensures AbsoluteUrl(AbsoluteUrl(href)) == AbsoluteUrl(href)
  {
  }

  /**
   * The name before cleaning: the trimmed `dl` text when it is non-empty;
   * otherwise, when the card has a lozenge, the first non-blank line (trimmed)
   * of the card text with the first occurrence of the lozenge text removed;
   * otherwise the trimmed card text.
   */
  function RawName(link: ResultLink): (n: string)
    ensures Trimmed(n)
  {
    var dl := TextOf(link.nameElement);
    if dl != "" then dl
    else if link.lozenge.Some? then FirstNonEmptyTrimmed(LozengeLines(link))
    else Trim(link.text)
  }

  /** The lines of the card text once the first occurrence of the lozenge text is cut out and the rest trimmed. */
  function LozengeLines(link: ResultLink): (lines: seq<string>)
    requires link.lozenge.Some?
    ensures |lines| >= 1 && forall k :: 0 <= k < |lines| ==> '\n' !in lines[k]
  {
    Split(Trim(RemoveFirst(link.text, link.lozenge.value)), '\n')
  }

  /** The option name: the raw name with whitespace runs made single spaces, then trimmed. */
  function TeamNameOf(link: ResultLink): (n: string)
    ensures Trimmed(n) && SingleSpaced(n) && PlainSpaces(n)
  {
    Clean(RawName(link))
  }

  /** A card is nameless exactly when its raw name has no visible character. */
  lemma NamelessIffBlank(link: ResultLink)
    ensures TeamNameOf(link) == "" <==> Visible(RawName(link)) == []
  {
    CleanVisible(RawName(link));
  }

  /** A card becomes an option only when it has an `href` and a non-empty name. */
  predicate Valid(link: ResultLink): (b: bool)
    ensures b <==> link.href != "" && Visible(RawName(link)) != []
  {
    NamelessIffBlank(link);
    link.href != "" && TeamNameOf(link) != ""
  }

  /** The option a valid card yields. */
  function OptionOf(link: ResultLink): (o: TeamOption)
    ensures Trimmed(o.name) && SingleSpaced(o.name) && PlainSpaces(o.name)
    ensures StartsWith(o.url, "http") && |link.href| <= |o.url| && o.url[|o.url| - |link.href|..] == link.href
    ensures Trimmed(o.competition) && Trimmed(o.resultType)
    ensures link.lozenge.None? ==> o.resultType == ""
  {
    TeamOption(TeamNameOf(link), AbsoluteUrl(link.href), TextOf(link.competitionElement), TextOf(link.lozenge))
  }

  function Hrefs(links: seq<ResultLink>): (r: seq<string>)
    ensures |r| == |links| && forall i :: 0 <= i < |links| ==> r[i] == links[i].href
  {
    seq(|links|, i requires 0 <= i < |links| => links[i].href)
  }

  function Validity(links: seq<ResultLink>): (r: seq<bool>)
    ensures |r| == |links| && forall i :: 0 <= i < |links| ==> r[i] == Valid(links[i])
  {
    seq(|links|, i requires 0 <= i < |links| => Valid(links[i]))
  }

  /** The positions of the accepted cards: valid, and no earlier valid card has the same `href`. */
  function AcceptedIndices(links: seq<ResultLink>): (r: seq<nat>)
    ensures |r| <= |links|
    ensures forall t :: 0 <= t < |r| ==> r[t] < |links| && Valid(links[r[t]])
    ensures forall t, u :: 0 <= t < u < |r| ==> r[t] < r[u] && links[r[t]].href != links[r[u]].href
  {
    Dedup.KeptKeysDistinct(Hrefs(links), Validity(links));
    Dedup.Kept(Hrefs(links), Validity(links))
  }

  /** The option each card would yield, in document order. */
  function Options(links: seq<ResultLink>): (r: seq<TeamOption>)
    ensures |r| == |links| && forall i :: 0 <= i < |links| ==> r[i] == OptionOf(links[i])
  {
    seq(|links|, i requires 0 <= i < |links| => OptionOf(links[i]))
  }

  /** Every accepted option, in document order. */
  function Accepted(links: seq<ResultLink>): (r: seq<TeamOption>)
    ensures |r| == |AcceptedIndices(links)| && |r| <= |links|
    ensures forall t :: 0 <= t < |r| ==> r[t] == OptionOf(links[AcceptedIndices(links)[t]])
  {
    Indices.Pick(Options(links), AcceptedIndices(links))
  }

  /** What the page callback returns: the first 20 accepted options. */
  function Results(links: seq<ResultLink>): (r: seq<TeamOption>)
    ensures |r| <= MaxOptions && |r| <= |Accepted(links)| && r == Accepted(links)[..|r|]
    ensures |r| == MaxOptions || r == Accepted(links)
  {
    var a := Accepted(links);
    a[..Min(MaxOptions, |a|)]
  }

  /** The team-name steps for one card: the `let teamName` reassignments of the callback. */
  method ReadTeamName(link: ResultLink) returns (teamName: string)
    ensures teamName == TeamNameOf(link)
  {
    teamName := "";
    if link.nameElement.Some? {
      teamName := Trim(link.nameElement.value);
    }
    if teamName == "" {
      if link.lozenge.Some? {
        var afterLozenge := Trim(RemoveFirst(link.text, link.lozenge.value));
        var lines := Split(afterLozenge, '\n');
        teamName := FirstNonEmptyTrimmed(lines);
      } else {
        teamName := Trim(link.text);
      }
    }
    teamName := Trim(Collapse(teamName));
  }

  /**
   * The forEach body for one card: no option for a card without `href`, one
   * whose `href` was already accepted, or one without a name.
   */
  method ReadCard(link: ResultLink, seenUrls: set<string>) returns (option: Option<TeamOption>)
    ensures option.Some? <==> link.href != "" && link.href !in seenUrls && TeamNameOf(link) != ""
    ensures option.Some? ==> option.value == OptionOf(link)
  {
    option := None;
    if link.href != "" && link.href !in seenUrls {
      var absoluteUrl := AbsoluteUrl(link.href);
      var teamName := ReadTeamName(link);
      var competitionName := TextOf(link.competitionElement);
      var resultType := TextOf(link.lozenge);
      if teamName != "" {
        option := Some(TeamOption(teamName, absoluteUrl, competitionName, resultType));
      }
    }
  }

  /**
   * The page callback: a walk over the cards with a set of seen `href`s that
   * grows only when a card is accepted, then the first 20 options.
   */
  method ExtractTeamOptions(links: seq<ResultLink>) returns (results: seq<TeamOption>)
    ensures results == Results(links)
  {
    var teamOptions: seq<TeamOption> := [];
    var seenUrls: set<string> := {};
    for i := 0 to |links|
      invariant seenUrls == Dedup.SeenKeys(Hrefs(links), Validity(links), i)
      invariant teamOptions == AcceptedBefore(links, i)
    {
      var link := links[i];
      var option := ReadCard(link, seenUrls);
      WalkStep(links, i, seenUrls, option);
      if option.Some? {
        seenUrls := seenUrls + {link.href};
        teamOptions := teamOptions + [option.value];
      }
    }
    assert Dedup.FirstFlags(Hrefs(links), Validity(links))[..|links|] == Dedup.FirstFlags(Hrefs(links), Validity(links));
    results := teamOptions[..Min(MaxOptions, |teamOptions|)];
  }

  /** The options accepted among the first `i` cards. */
  function AcceptedBefore(links: seq<ResultLink>, i: nat): seq<TeamOption>
    requires i <= |links|
  {
    Indices.Pick(Options(links), Indices.Selected(Dedup.FirstFlags(Hrefs(links), Validity(links))[..i]))
  }

  /** One card of the walk: the seen set and the options grow exactly by an accepted card. */
  lemma WalkStep(links: seq<ResultLink>, i: nat, seen: set<string>, option: Option<TeamOption>)
    requires i < |links|
    requires seen == Dedup.SeenKeys(Hrefs(links), Validity(links), i)
    requires option.Some? <==> links[i].href != "" && links[i].href !in seen && TeamNameOf(links[i]) != ""
    requires option.Some? ==> option.value == OptionOf(links[i])
    ensures Dedup.SeenKeys(Hrefs(links), Validity(links), i + 1) ==
            if option.Some? then seen + {links[i].href} else seen
    ensures AcceptedBefore(links, i + 1) ==
            AcceptedBefore(links, i) + (if option.Some? then [option.value] else [])
  {
    var hrefs, validity := Hrefs(links), Validity(links);
    Dedup.SeenStep(hrefs, validity, i);
    assert validity[i] == Valid(links[i]);
    assert option.Some? == Dedup.FirstValid(hrefs, validity, i);
    Indices.PickSelectedSnoc(Options(links), Dedup.FirstFlags(hrefs, validity), i);
  }

  /**
   * `handleSearch` after the page callback: with results, one `team-options`
   * record carrying the requested index, and the option a run would follow;
   * without, one `error` record naming the team searched for.
   */
  method HandleSearch(page: SearchPage, teamName: Option<string>, selectedTeamIndex: Option<int>,
                      dataset: Crawl.Dataset<Record>)
    returns (teamToSelect: Option<TeamOption>)
    modifies dataset
    ensures var rs := Results(page.links);
            if |rs| > 0 then
              && dataset.items == old(dataset.items) + [TeamOptions(rs, selectedTeamIndex)]
              && teamToSelect == Some(rs[Crawl.ChooseIndex(|rs|, selectedTeamIndex)])
            else
              && dataset.items == old(dataset.items) + [NoResults(NoResultsMessage, page.url, teamName)]
              && teamToSelect == None
  {
    var results := ExtractTeamOptions(page.links);
    if |results| > 0 {
      dataset.Push(TeamOptions(results, selectedTeamIndex));
      if selectedTeamIndex.Some? {
        if selectedTeamIndex.value >= 0 && selectedTeamIndex.value < |results| {
          teamToSelect := Some(results[selectedTeamIndex.value]);
        } else {
          teamToSelect := Some(results[0]);
        }
      } else {
        teamToSelect := Some(results[0]);
      }
    } else {
      dataset.Push(NoResults(NoResultsMessage, page.url, teamName));
      teamToSelect := None;
    }
  }

  /** The request handler: only a `search` request does anything. */
  method HandleRequest(job: Crawl.Job, page: SearchPage, dataset: Crawl.Dataset<Record>)
    modifies dataset
    ensures job.stage != "search" ==> dataset.items == old(dataset.items)
    ensures job.stage == "search" ==> |dataset.items| == |old(dataset.items)| + 1
    ensures job.stage == "search" ==>
              var rs := Results(page.links);
              if |rs| > 0 then dataset.items == old(dataset.items) + [TeamOptions(rs, job.selectedTeamIndex)]
              else dataset.items == old(dataset.items) + [NoResults(NoResultsMessage, page.url, job.teamName)]
  {
    if job.stage == "search" {
      var _ := HandleSearch(page, job.teamName, job.selectedTeamIndex, dataset);
    }
  }

  // ---------------------------------------------------------------------------
  // Properties of the extraction
  // ---------------------------------------------------------------------------

  /**
   * A card is accepted exactly when it has an `href`, its name is non-empty,
   * and no earlier card with a non-empty name has the same `href`. Nothing
   * else is tested: the result type plays no part.
   */
  lemma AcceptedExactly(links: seq<ResultLink>, i: nat)
    requires i < |links|
    ensures i in AcceptedIndices(links) <==>
            && links[i].href != "" && TeamNameOf(links[i]) != ""
            && forall j :: 0 <= j < i && Valid(links[j]) ==> links[j].href != links[i].href
  {
    var hrefs, validity := Hrefs(links), Validity(links);
    var idx := AcceptedIndices(links);
    if i in idx {
      var t :| 0 <= t < |idx| && idx[t] == i;
      assert Dedup.FirstValid(hrefs, validity, i);
      forall j | 0 <= j < i && Valid(links[j]) ensures links[j].href != links[i].href {
        assert validity[j];
      }
    }
  }

  /** The results are the first `min(20, k)` of the `k` accepted options, in document order. */
  lemma ResultsArePrefix(links: seq<ResultLink>)
    ensures var rs := Results(links);
            var idx := AcceptedIndices(links);
            && |rs| <= MaxOptions
            && |rs| == Min(MaxOptions, |idx|)
            && rs == Accepted(links)[..|rs|]
            && (forall t :: 0 <= t < |rs| ==> idx[t] < |links| && rs[t] == OptionOf(links[idx[t]]))
            && (forall t, u :: 0 <= t < u < |rs| ==> idx[t] < idx[u])
  {
  }

  /** No two results come from cards with the same `href`. */
  lemma ResultsDistinct(links: seq<ResultLink>)
    ensures var rs := Results(links);
            var idx := AcceptedIndices(links);
            |rs| <= |idx| && forall t, u :: 0 <= t < u < |rs| ==> links[idx[t]].href != links[idx[u]].href
  {
    Dedup.KeptKeysDistinct(Hrefs(links), Validity(links));
  }

  /** Every result has a non-empty name with no outer whitespace and no whitespace run. */
  lemma ResultNamesClean(links: seq<ResultLink>)
    ensures forall o :: o in Results(links) ==>
              o.name != "" && Trimmed(o.name) && SingleSpaced(o.name) && PlainSpaces(o.name)
  {
    var idx := AcceptedIndices(links);
    var rs := Results(links);
    forall o | o in rs
      ensures o.name != "" && Trimmed(o.name) && SingleSpaced(o.name) && PlainSpaces(o.name)
    {
      var t :| 0 <= t < |rs| && rs[t] == o;
      assert Dedup.FirstValid(Hrefs(links), Validity(links), idx[t]);
      assert Valid(links[idx[t]]);
    }
  }

  /**
   * When there are more than 20 accepted options, deduplication happens
   * before truncation: exactly 20 results, all from distinct `href`s.
   */
  lemma TruncatesAfterDedup(links: seq<ResultLink>)
    requires |Dedup.ValidKeys(Hrefs(links), Validity(links))| >= MaxOptions
    ensures |Results(links)| == MaxOptions
  {
    Dedup.KeptCount(Hrefs(links), Validity(links));
  }

  /**
   * A nameless card does not mark its `href` as seen: a later named card with
   * the same `href` is still accepted, when no other earlier card took it.
   */
  lemma NamelessDoesNotShadow(links: seq<ResultLink>, i: nat, j: nat)
    requires i < j < |links| && links[i].href == links[j].href
    requires TeamNameOf(links[i]) == "" && Valid(links[j])
    requires forall k :: 0 <= k < j && k != i && Valid(links[k]) ==> links[k].href != links[j].href
    ensures j in AcceptedIndices(links)
    ensures i !in AcceptedIndices(links)
  {
    AcceptedExactly(links, i);
    AcceptedExactly(links, j);
  }

  /**
   * The name fallback: a card without `dl` text but with a lozenge is named
   * after the first non-blank line of its text once the lozenge text is cut
   * out, and is nameless only when every such line is blank.
   */
  lemma LozengeFallback(link: ResultLink)
    requires TextOf(link.nameElement) == "" && link.lozenge.Some?
    ensures RawName(link) == "" <==> forall k :: 0 <= k < |LozengeLines(link)| ==> Trim(LozengeLines(link)[k]) == ""
    ensures RawName(link) != "" ==>
              exists k :: 0 <= k < |LozengeLines(link)| && RawName(link) == Trim(LozengeLines(link)[k]) &&
                          forall j :: 0 <= j < k ==> Trim(LozengeLines(link)[j]) == ""
  {
    var lines := LozengeLines(link);
    assert RawName(link) == FirstNonEmptyTrimmed(lines);
  }
}
