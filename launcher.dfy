/**
 * The entry point (src/main.js): from the actor input's `mode`, `drawerUrl`,
 * `startUrl` and `teamName` it decides which program runs — the draw-page
 * scraper, the team discovery — or stops with an error.
 */
module Launcher {
  import opened Wrappers

  /** The input fields the decision reads; `None` where the field is missing. */
  datatype Input = Input(mode: Option<string>, drawerUrl: Option<string>, startUrl: Option<string>, teamName: Option<string>)

  datatype Program = DrawScraper | TeamDiscovery

  /** What the entry point does: run a program, or stop with one of its two errors. */
  datatype Outcome =
    | Run(program: Program)
    | MissingInput(message: string)
    | UnknownMode(message: string)

  const MissingInputMessage := "Please provide either:\n- For discoverer: startUrl and teamName\n- For scraper: drawerUrl\n- Or explicitly set mode: \"discover\" or \"scraper\""

  function UnknownModeMessage(mode: string): string {
    "Unknown mode: " + mode + ". Must be \"discover\" or \"scraper\""
  }

  /** JavaScript truthiness of a string field: present and non-empty. */
  predicate Truthy(v: Option<string>): (b: bool)
    ensures v.None? ==> !b
    ensures v == Some("") ==> !b
    ensures v.Some? && v.value != "" ==> b
  {
    v.Some? && v.value != ""
  }

  /**
   * `runMode`: the explicit mode when it is truthy; otherwise "scraper" when a
   * draw URL is given, else "discover" when both a start URL and a team name
   * are given; `None` where the entry point throws for missing input.
   */
  function InferRunMode(input: Input): (m: Option<string>)
    ensures Truthy(input.mode) ==> m == input.mode
    ensures !Truthy(input.mode) && Truthy(input.drawerUrl) ==> m == Some("scraper")
    ensures !Truthy(input.mode) && !Truthy(input.drawerUrl) ==>
              (m == Some("discover") <==> Truthy(input.startUrl) && Truthy(input.teamName))
    ensures m.None? <==> !Truthy(input.mode) && !Truthy(input.drawerUrl) &&
                         !(Truthy(input.startUrl) && Truthy(input.teamName))
  {
    if Truthy(input.mode) then input.mode
    else if Truthy(input.drawerUrl) then Some("scraper")
    else if Truthy(input.startUrl) && Truthy(input.teamName) then Some("discover")
    else None
  }

  /** The dispatch on the resolved mode. */
  function Launch(input: Input): (o: Outcome)
    ensures o == Run(DrawScraper) <==>
              (Truthy(input.mode) && input.mode.value == "scraper") ||
              (!Truthy(input.mode) && Truthy(input.drawerUrl))
    ensures o == Run(TeamDiscovery) <==>
              (Truthy(input.mode) && input.mode.value == "discover") ||
              (!Truthy(input.mode) && !Truthy(input.drawerUrl) && Truthy(input.startUrl) && Truthy(input.teamName))
    ensures o.UnknownMode? <==> Truthy(input.mode) && input.mode.value != "scraper" && input.mode.value != "discover"
    ensures o.MissingInput? ==> o.message == MissingInputMessage
  {
    match InferRunMode(input)
    case None => MissingInput(MissingInputMessage)
    case Some(runMode) =>
      if runMode == "scraper" then Run(DrawScraper)
      else if runMode == "discover" then Run(TeamDiscovery)
      else UnknownMode(UnknownModeMessage(runMode))
  }

  /** A truthy explicit mode is used as it is: the other fields are not consulted. */
  lemma ExplicitModeWins(input: Input, other: Input)
    requires Truthy(input.mode) && other.mode == input.mode
    ensures Launch(input) == Launch(other)
  {
  }

  /** Without a mode, a draw URL selects the scraper whatever the discovery fields hold. */
  lemma DrawerUrlFirst(input: Input)
    requires !Truthy(input.mode) && Truthy(input.drawerUrl)
    ensures Launch(input) == Launch(Input(input.mode, input.drawerUrl, None, None)) == Run(DrawScraper)
  {
  }

  /** Inference alone never produces an unknown mode: that error needs an explicit mode. */
  lemma InferenceNeverUnknown(input: Input)
    requires !Truthy(input.mode)
    ensures !Launch(input).UnknownMode?
    ensures Launch(input).MissingInput? <==> !Truthy(input.drawerUrl) && !(Truthy(input.startUrl) && Truthy(input.teamName))
  {
  }
}
