/**
 * The draw-page scraper (src/scraper.js): every `ul.l-grid > li` fixture is
 * read into a match record — status text cleaned and classified, scores
 * parsed, completion inferred — fixtures without both team names are dropped,
 * and the page yields one `match` record per kept fixture or exactly one
 * `error` record when none is kept.
 */
module Scraper {
  import opened Wrappers
  import opened Text
  import Indices
  import Crawl

  /** The fixture's `time` element: its `datetime` attribute (`None` when absent) and its text. */
  datatype TimeElement = TimeElement(datetime: Option<string>, text: string)

  /** The fixture's `a[href*="/Competitions/Match/"]`: the resolved `href` property and the raw attribute. */
  datatype MatchLink = MatchLink(href: string, hrefAttribute: string)

  /**
   * One `li` of the draw page, as its `querySelector` results: `None` where the
   * element is absent, otherwise the element's text content.
   */
  datatype Fixture = Fixture(
    title: Option<string>,      // .match-header__title
    time: Option<TimeElement>,  // time
    roundLabel: Option<string>, // .match-header__title span
    homeTeam: Option<string>,   // .match-team__name--home
    awayTeam: Option<string>,   // .match-team__name--away
    venue: Option<string>,      // .match-cta__link
    link: Option<MatchLink>,
    lozenge: Option<string>,    // .match__lozenge
    homeScore: Option<string>,  // .match-team__score--home
    awayScore: Option<string>)  // .match-team__score--away

  /** A scraped match; a score is `None` (null) unless a number was read. */
  datatype Match = Match(
    date: string, round: string, kickOffTime: string, dateTime: Option<string>,
    homeTeam: string, awayTeam: string, venue: string,
    matchUrl: string, matchUrlRelative: string,
    gameStatus: string, isCompleted: bool,
    homeScore: Option<nat>, awayScore: Option<nat>)

  /** What the scraper pushes to the dataset. */
  datatype Record =
    | MatchRecord(game: Match, scrapedFrom: string)
    | NoMatchData(message: string, drawerUrl: string)

  /**
   * The rendered draw page: its URL, whether the fixture list `ul.l-grid`
   * appears within the wait, and its fixtures in document order.
   */
  datatype DrawPage = DrawPage(url: string, listPresent: bool, fixtures: seq<Fixture>)

  const FullTime := "Full Time"
  const NoMatchMessage := "No match data found"

  /** The date: the first line of the trimmed title, itself trimmed; "" without a title. */
  function DateOf(title: Option<string>): (d: string)
    ensures Trimmed(d) && '\n' !in d
    ensures title.None? ==> d == ""
  {
    match title
    case None => ""
    case Some(t) =>
      var line := FirstLine(Trim(t));
      TrimMembers(line);
      Trim(line)
  }

  /** The status lozenge's text with newlines and whitespace runs made single spaces, then trimmed. */
  function StatusOf(lozenge: Option<string>): (s: string)
    ensures Trimmed(s) && SingleSpaced(s) && PlainSpaces(s) && '\n' !in s
    ensures lozenge.None? ==> s == ""
  {
    match lozenge
    case None => ""
    case Some(t) =>
      var s := Clean(NewlinesToSpaces(t));
      PlainSpacesNoNewline(s);
      s
  }

  /**
   * The status names a finished game: its lower-cased text contains one of the
   * four keywords. Collapsing whitespace cannot hide a keyword that the
   * lower-cased text already holds.
   */
  predicate SaysCompleted(status: string): (b: bool)
    ensures Contains(ToLower(status), "full time") ==> b
    ensures Contains(ToLower(status), "final") ==> b
    ensures Contains(ToLower(status), "complete") ==> b
    ensures Contains(ToLower(status), "finished") ==> b
  {
    KeywordsSurvive(ToLower(status));
    var t := Collapse(ToLower(status));
    Contains(t, "full time") || Contains(t, "final") || Contains(t, "complete") || Contains(t, "finished")
  }

  /** Each keyword is kept whole by `replace(/\s+/g, ' ')` wherever it occurs. */
  lemma KeywordsSurvive(s: string)
    ensures Contains(s, "full time") ==> Contains(Collapse(s), "full time")
    ensures Contains(s, "final") ==> Contains(Collapse(s), "final")
    ensures Contains(s, "complete") ==> Contains(Collapse(s), "complete")
    ensures Contains(s, "finished") ==> Contains(Collapse(s), "finished")
  {
    assert "full" + " " + "time" == "full time";
    PhraseSurvives(s, "full", "time");
    WordSurvives(s, "final");
    WordSurvives(s, "complete");
    WordSurvives(s, "finished");
  }

  /**
   * A score element's number: the value of the first run of digits with a
   * word boundary on both sides, after whitespace runs are made single spaces;
   * `None` when the element is absent or holds no such run, never 0 by default.
   */
  function ScoreOf(el: Option<string>): (r: Option<nat>)
    ensures el.None? ==> r.None?
    ensures r.Some? ==> el.Some? && exists i, j :: BoundedRun(Collapse(el.value), i, j)
    ensures el.Some? && (exists i, j :: BoundedRun(Collapse(el.value), i, j)) ==> r.Some?
    ensures r.Some? ==> exists i, j :: LeftmostRun(Collapse(el.value), i, j) &&
                                       r.value == DecimalValue(Collapse(el.value)[i..j])
  {
    if el.None? then None
    else
      var s := Collapse(el.value);
      var run := FirstBoundedRun(s);
      if run.None? then None
      else
        assert LeftmostRun(s, run.value.0, run.value.1);
        Some(DecimalValue(s[run.value.0..run.value.1]))
  }

  /** Both team names are present: the condition for a fixture to yield a match. */
  predicate NamesBothTeams(f: Fixture): (b: bool)
    ensures b ==> f.homeTeam.Some? && f.awayTeam.Some?
  {
    TextOf(f.homeTeam) != "" && TextOf(f.awayTeam) != ""
  }

  /**
   * The completion inference, stated as the rule it follows: completed when the
   * status names a finished game or any score was read; the status is the
   * cleaned lozenge text, except that a game completed on score evidence alone
   * with no status text gets "Full Time".
   */
  function Completion(lozenge: Option<string>, home: Option<nat>, away: Option<nat>): (r: (string, bool))
    ensures r.1 <==> SaysCompleted(StatusOf(lozenge)) || home.Some? || away.Some?
    ensures (home.Some? || away.Some?) ==> r.1 && r.0 != ""
    ensures !r.1 ==> home.None? && away.None? && r.0 == StatusOf(lozenge)
    ensures r.0 != StatusOf(lozenge) ==> StatusOf(lozenge) == "" && r.0 == FullTime && r.1
  {
    NothingInEmpty();
    var status := StatusOf(lozenge);
    var scored := home.Some? || away.Some?;
    (if scored && status == "" then FullTime else status,
     (lozenge.Some? && SaysCompleted(status)) || scored)
  }

  /** The record a fixture's fields are copied and normalised into. */
  function Normalise(f: Fixture): (m: Match)
    ensures m.homeScore == ScoreOf(f.homeScore) && m.awayScore == ScoreOf(f.awayScore)
    ensures m.isCompleted <==> SaysCompleted(StatusOf(f.lozenge)) || m.homeScore.Some? || m.awayScore.Some?
    ensures Trimmed(m.date) && '\n' !in m.date
    ensures Trimmed(m.round) && Trimmed(m.kickOffTime) && Trimmed(m.homeTeam) && Trimmed(m.awayTeam) && Trimmed(m.venue)
    ensures Trimmed(m.gameStatus) && SingleSpaced(m.gameStatus) && '\n' !in m.gameStatus
  {
    FullTimeIsClean();
    var home := ScoreOf(f.homeScore);
    var away := ScoreOf(f.awayScore);
    var c := Completion(f.lozenge, home, away);
    Match(
      date := DateOf(f.title),
      round := TextOf(f.roundLabel),
      kickOffTime := if f.time.Some? then Trim(f.time.value.text) else "",
      dateTime := if f.time.Some? then f.time.value.datetime else Some(""),
      homeTeam := TextOf(f.homeTeam),
      awayTeam := TextOf(f.awayTeam),
      venue := TextOf(f.venue),
      matchUrl := if f.link.Some? then f.link.value.href else "",
      matchUrlRelative := if f.link.Some? then f.link.value.hrefAttribute else "",
      gameStatus := c.0,
      isCompleted := c.1,
      homeScore := home,
      awayScore := away)
  }

  /** The match a fixture yields: none without both team names. */
  function MatchOf(f: Fixture): (r: Option<Match>)
    ensures r.Some? <==> TextOf(f.homeTeam) != "" && TextOf(f.awayTeam) != ""
    ensures r.Some? ==> r.value.homeTeam == TextOf(f.homeTeam) && r.value.awayTeam == TextOf(f.awayTeam)
  {
    if NamesBothTeams(f) then Some(Normalise(f)) else None
  }

  /** The status lozenge step: the cleaned text, and whether it names a finished game. */
  method ReadStatus(lozenge: Option<string>) returns (gameStatus: string, isCompleted: bool)
    ensures gameStatus == StatusOf(lozenge)
    ensures isCompleted <==> lozenge.Some? && SaysCompleted(gameStatus)
  {
    gameStatus := "";
    isCompleted := false;
    if lozenge.Some? {
      gameStatus := Trim(Collapse(NewlinesToSpaces(lozenge.value)));
      var statusText := Collapse(ToLower(gameStatus));
      isCompleted := Contains(statusText, "full time") || Contains(statusText, "final")
                     || Contains(statusText, "complete") || Contains(statusText, "finished");
    }
  }

  /** The score step for one side: null unless the element is there and a bounded run of digits is found. */
  method ReadScore(el: Option<string>) returns (score: Option<nat>)
    ensures score == ScoreOf(el)
  {
    score := None;
    if el.Some? {
      var scoreText := Collapse(el.value);
      var scoreMatch := FirstBoundedRun(scoreText);
      if scoreMatch.Some? {
        score := Some(DecimalValue(scoreText[scoreMatch.value.0..scoreMatch.value.1]));
      }
    }
  }

  /** The forEach body for one fixture: the step-by-step updates of the page callback. */
  method ExtractFixture(f: Fixture) returns (m: Option<Match>)
    ensures m == MatchOf(f)
  {
    var date := DateOf(f.title);
    var dateTime: Option<string> := Some("");
    var kickOffTime := "";
    if f.time.Some? {
      dateTime := f.time.value.datetime;
      kickOffTime := Trim(f.time.value.text);
    }
    var round := TextOf(f.roundLabel);
    var homeTeam := TextOf(f.homeTeam);
    var awayTeam := TextOf(f.awayTeam);
    var venue := TextOf(f.venue);
    var matchUrl, matchUrlRelative := "", "";
    if f.link.Some? {
      matchUrl, matchUrlRelative := f.link.value.href, f.link.value.hrefAttribute;
    }

    var gameStatus, isCompleted := ReadStatus(f.lozenge);
    var homeScore := ReadScore(f.homeScore);
    var awayScore := ReadScore(f.awayScore);
    NothingInEmpty();

    if (homeScore.Some? || awayScore.Some?) && !isCompleted {
      isCompleted := true;
      if gameStatus == "" {
        gameStatus := FullTime;
      }
    }
    assert (gameStatus, isCompleted) == Completion(f.lozenge, homeScore, awayScore);

    if homeTeam != "" && awayTeam != "" {
      m := Some(Match(date, round, kickOffTime, dateTime, homeTeam, awayTeam, venue,
                      matchUrl, matchUrlRelative, gameStatus, isCompleted, homeScore, awayScore));
      assert m.value == Normalise(f);
    } else {
      m := None;
    }
  }

  /** What each fixture yields, in document order. */
  function Outcomes(fs: seq<Fixture>): (r: seq<Option<Match>>)
    ensures |r| == |fs| && forall i :: 0 <= i < |fs| ==> r[i] == MatchOf(fs[i])
  {
    seq(|fs|, i requires 0 <= i < |fs| => MatchOf(fs[i]))
  }

  /** The matches of the fixtures that yield one, in document order. */
  function KeptMatches(fs: seq<Fixture>): (r: seq<Match>)
    ensures |r| <= |fs|
    ensures forall t :: 0 <= t < |r| ==> r[t].homeTeam != "" && r[t].awayTeam != ""
  {
    var outs := Outcomes(fs);
    var idx := Indices.Selected(Indices.Flags(outs));
    var r := Indices.Present(outs);
    assert forall t :: 0 <= t < |r| ==> MatchOf(fs[idx[t]]) == Some(r[t]);
    r
  }

  /** The page callback: the fixtures' matches, in document order. */
  method ExtractMatches(fs: seq<Fixture>) returns (matches: seq<Match>)
    ensures matches == KeptMatches(fs)
  {
    ghost var outs := Outcomes(fs);
    matches := [];
    var i := 0;
    while i < |fs|
      invariant 0 <= i <= |fs|
      invariant matches == Indices.Present(outs[..i])
    {
      var m := ExtractFixture(fs[i]);
      Indices.PresentStep(outs, i, m);
      if m.Some? {
        matches := matches + [m.value];
      }
      i := i + 1;
    }
    assert outs[..|fs|] == outs;
  }

  /** One `match` record per match, in order, each naming the page it was scraped from. */
  function MatchRecords(ms: seq<Match>, url: string): (r: seq<Record>)
    ensures |r| == |ms|
    ensures forall t :: 0 <= t < |ms| ==> r[t] == MatchRecord(ms[t], url)
  {
    if ms == [] then [] else MatchRecords(ms[..|ms| - 1], url) + [MatchRecord(ms[|ms| - 1], url)]
  }

  /**
   * `handleDrawScraping` after the page callback: when the fixture list never
   * appears the wait throws and nothing is pushed; otherwise one `match` record
   * per kept fixture, in order, each carrying the page URL, or exactly one
   * `error` record when none is kept.
   */
  method HandleDrawScraping(page: DrawPage, dataset: Crawl.Dataset<Record>)
    modifies dataset
    ensures !page.listPresent ==> dataset.items == old(dataset.items)
    ensures page.listPresent ==>
              var kept := KeptMatches(page.fixtures);
              if |kept| > 0 then dataset.items == old(dataset.items) + MatchRecords(kept, page.url)
              else dataset.items == old(dataset.items) + [NoMatchData(NoMatchMessage, page.url)]
  {
    if !page.listPresent {
      // The unguarded wait for the list times out and the handler stops before any push.
      return;
    }
    var matches := ExtractMatches(page.fixtures);
    if |matches| > 0 {
      PushMatches(matches, page.url, dataset);
    } else {
      dataset.Push(NoMatchData(NoMatchMessage, page.url));
    }
  }

  /** `for (const match of matches) await Actor.pushData({type: 'match', ...})`. */
  method PushMatches(matches: seq<Match>, url: string, dataset: Crawl.Dataset<Record>)
    modifies dataset
    ensures dataset.items == old(dataset.items) + MatchRecords(matches, url)
  {
    var k := 0;
    while k < |matches|
      invariant 0 <= k <= |matches|
      invariant dataset.items == old(dataset.items) + MatchRecords(matches[..k], url)
    {
      assert matches[..k + 1][..k] == matches[..k];
      dataset.Push(MatchRecord(matches[k], url));
      k := k + 1;
    }
    assert matches[..k] == matches;
  }

  /** The request handler: only a `scrape-draw` request does anything. */
  method HandleRequest(job: Crawl.Job, page: DrawPage, dataset: Crawl.Dataset<Record>)
    modifies dataset
    ensures job.stage != "scrape-draw" ==> dataset.items == old(dataset.items)
    ensures job.stage == "scrape-draw" && !page.listPresent ==> dataset.items == old(dataset.items)
    ensures job.stage == "scrape-draw" && page.listPresent ==> |dataset.items| > |old(dataset.items)|
    ensures job.stage == "scrape-draw" && page.listPresent ==>
              var kept := KeptMatches(page.fixtures);
              if |kept| > 0 then dataset.items == old(dataset.items) + MatchRecords(kept, page.url)
              else dataset.items == old(dataset.items) + [NoMatchData(NoMatchMessage, page.url)]
  {
    if job.stage == "scrape-draw" {
      HandleDrawScraping(page, dataset);
    }
  }

  // ---------------------------------------------------------------------------
  // Properties of the completion inference
  // ---------------------------------------------------------------------------

  /**
   * A kept match is completed exactly when its status names a finished game or
   * a score was read; so a match that is not completed has no score.
   */
  lemma CompletionRule(f: Fixture)
    requires MatchOf(f).Some?
    ensures var m := MatchOf(f).value;
            && (m.isCompleted <==> SaysCompleted(StatusOf(f.lozenge)) || m.homeScore.Some? || m.awayScore.Some?)
            && (!m.isCompleted ==> m.homeScore.None? && m.awayScore.None?)
            && m.homeScore == ScoreOf(f.homeScore) && m.awayScore == ScoreOf(f.awayScore)
  {
    assert !SaysCompleted("") by { NothingInEmpty(); }
  }

  lemma NothingInEmpty()
    ensures !SaysCompleted("")
  {
    assert Collapse(ToLower("")) == "";
  }

  /**
   * Score evidence overrides the status only when there is no status text:
   * a non-empty status is kept verbatim, and "Full Time" is put in only when
   * the lozenge gave nothing and a score was read.
   */
  lemma StatusKeptOrSynthesised(f: Fixture)
    requires MatchOf(f).Some?
    ensures var m := MatchOf(f).value;
            && (StatusOf(f.lozenge) != "" ==> m.gameStatus == StatusOf(f.lozenge))
            && (m.gameStatus != StatusOf(f.lozenge) ==>
                  StatusOf(f.lozenge) == "" && m.gameStatus == FullTime && m.isCompleted)
            && Trimmed(m.gameStatus) && SingleSpaced(m.gameStatus) && '\n' !in m.gameStatus
  {
    NothingInEmpty();
    FullTimeIsClean();
  }

  lemma FullTimeIsClean()
    ensures Trimmed(FullTime) && SingleSpaced(FullTime) && '\n' !in FullTime
  {
    assert FullTime == ['F', 'u', 'l', 'l', ' ', 'T', 'i', 'm', 'e'];
    forall i | 0 < i < |FullTime| ensures !(IsSpace(FullTime[i - 1]) && IsSpace(FullTime[i])) {
      assert i == 4 || i == 5 || !IsSpace(FullTime[i]);
    }
  }

  /** An observed 0-0 is a result: the match is completed, the zeros are kept, and an empty status becomes "Full Time". */
  lemma ObservedNilAllCompletes(f: Fixture)
    requires NamesBothTeams(f) && f.lozenge.None?
    requires f.homeScore == Some("0") && f.awayScore == Some("0")
    ensures MatchOf(f).Some?
    ensures var m := MatchOf(f).value;
            m.isCompleted && m.gameStatus == FullTime && m.homeScore == Some(0) && m.awayScore == Some(0)
  {
    var s := Collapse("0");
    assert s == "0";
    assert BoundedRun(s, 0, 1);
    assert s[0..1] == "0";
  }

  /**
   * Cleaning turns a newline or a tab inside the status into a space and
   * deletes nothing: a lozenge reading "F", newline, "in", tab, "al" gives
   * the status "F in al", not "Final".
   */
  lemma StatusKeepsSeparators(a: string, b: string, c: string)
    requires a != [] && forall k :: 0 <= k < |a| ==> !IsSpace(a[k])
    requires b != [] && forall k :: 0 <= k < |b| ==> !IsSpace(b[k])
    requires c != [] && forall k :: 0 <= k < |c| ==> !IsSpace(c[k])
    ensures StatusOf(Some(a + "\n" + b + "\t" + c)) == a + " " + b + " " + c
  {
    var s := a + "\n" + b + "\t" + c;
    var x := b + "\t" + c;
    assert s == a + "\n" + x;
    assert forall k :: 0 <= k < |x| ==> x[k] != '\n' by {
      assert forall k :: 0 <= k < |x| ==> x[k] == '\t' || !IsSpace(x[k]);
    }
    NewlineBecomesSpace(a, x);
    Regroup(a + " " + b, a + " ", b, "\t", c);
    CleanTwoRuns(a, " ", b, "\t", c);
    assert StatusOf(Some(s)) == Clean(NewlinesToSpaces(s));
  }

  /** Without a score element, or with one holding no digit at all, the score stays null. */
  lemma NoNumberNoScore(t: string)
    requires forall k :: 0 <= k < |t| ==> !IsDigit(t[k])
    ensures ScoreOf(None) == None && ScoreOf(Some(t)) == None
  {
    var s := Collapse(t);
    CollapseVisible(t);
    forall i | 0 <= i < |s| ensures !IsDigit(s[i]) {
      if !IsSpace(s[i]) {
        VisibleMember(s, i);
        VisibleOnlyFrom(t, s[i]);
      }
    }
    forall i, j ensures !BoundedRun(s, i, j) {
      if 0 <= i < |s| {
        assert !IsDigit(s[i]);
      }
    }
  }

  lemma {:induction false} VisibleMember(s: string, i: nat)
    requires i < |s| && !IsSpace(s[i])
    ensures s[i] in Visible(s)
  {
    if i > 0 {
      VisibleMember(s[1..], i - 1);
    }
  }

  lemma {:induction false} VisibleOnlyFrom(t: string, c: char)
    requires c in Visible(t)
    ensures c in t
  {
    if t != [] && c !in (if IsSpace(t[0]) then [] else [t[0]]) {
      VisibleOnlyFrom(t[1..], c);
    }
  }

  /** Every kept match names both teams, and every fixture naming both teams is kept, in document order. */
  lemma KeptMatchesExactly(fs: seq<Fixture>)
    ensures var idx := Indices.Selected(Indices.Flags(Outcomes(fs)));
            var ms := KeptMatches(fs);
            && (forall t :: 0 <= t < |ms| ==> MatchOf(fs[idx[t]]) == Some(ms[t]))
            && (forall t :: 0 <= t < |ms| ==> ms[t].homeTeam != "" && ms[t].awayTeam != "")
            && (forall t, u :: 0 <= t < u < |idx| ==> idx[t] < idx[u])
            && (forall i :: 0 <= i < |fs| && TextOf(fs[i].homeTeam) != "" && TextOf(fs[i].awayTeam) != "" ==>
                  exists t :: 0 <= t < |ms| && idx[t] == i)
  {
    var idx := Indices.Selected(Indices.Flags(Outcomes(fs)));
    forall i | 0 <= i < |fs| && TextOf(fs[i].homeTeam) != "" && TextOf(fs[i].awayTeam) != ""
      ensures exists t :: 0 <= t < |idx| && idx[t] == i
    {
      assert Indices.Flags(Outcomes(fs))[i];
      assert i in idx;
    }
  }
}
