/**
 * The browser session behind a scrape, seen from the handler: each awaited
 * browser call either completes or throws, and the handler reacts to the
 * first throw. A session's outcomes are given up front as an `Env`; the
 * handlers record what they ask the browser to do as a trace of `Effect`s.
 */
module Session {
  import opened Wrappers
  import opened Roles
  import opened Scrape

  /** What a failing call throws: an `Error` with its message, or any other value. */
  datatype Thrown = ErrorObject(message: string) | OtherValue

  /** A call that returns nothing of interest. */
  datatype Step = Done | Threw(error: Thrown)

  /** A call that returns a value. */
  datatype Read<T> = Got(value: T) | ReadThrew(failure: Thrown)

  /**
   * How each browser call of one request turns out. `closeBrowserAgain` is
   * the outcome of a second `close` on the same browser, which only the
   * Next.js route can issue. `timestamp` stands for the clock reading.
   */
  datatype Env = Env(
    executablePath: Step,
    launch: Step,
    newPage: Step,
    goto: Step,
    waitForTable: Step,
    rows: Read<seq<Row>>,
    bossTitle: Read<Option<string>>,
    zoneTitle: Read<Option<string>>,
    closePage: Step,
    closeBrowser: Step,
    closeBrowserAgain: Step,
    timestamp: string)

  /** The browser calls a handler makes, in order. */
  datatype Effect =
    | ResolveExecutable
    | Launch
    | NewPage
    | Goto(url: string)
    | WaitForTable
    | Settle
    | ReadRows
    | ReadBossTitle
    | ReadZoneTitle
    | ClosePage
    | CloseBrowser

  predicate IsClose(e: Effect) {
    e == ClosePage || e == CloseBrowser
  }

  /** The message of an `Error`, and "Unknown error" for any other thrown value. */
  function Details(e: Thrown): string {
    match e
    case ErrorObject(m) => m
    case OtherValue => "Unknown error"
  }

  /** The boss label that was read, `""` when no boss was asked for or the read failed. */
  function BossLabel(env: Env, bossGiven: bool): string {
    if bossGiven && env.bossTitle.Got? then TitleText(env.bossTitle.value) else ""
  }

  /**
   * The first error thrown from `launch` up to the title reads, or `None`
   * when they all complete. The boss title is only read when a boss was
   * asked for, the zone title only when the boss label came out empty.
   */
  function GatherFailure(env: Env, bossGiven: bool): (r: Option<Thrown>)
    ensures r.None? <==>
      && env.launch.Done? && env.newPage.Done? && env.goto.Done? && env.waitForTable.Done?
      && env.rows.Got?
      && (bossGiven ==> env.bossTitle.Got?)
      && (BossLabel(env, bossGiven) == "" ==> env.zoneTitle.Got?)
  {
    if env.launch.Threw? then Some(env.launch.error)
    else if env.newPage.Threw? then Some(env.newPage.error)
    else if env.goto.Threw? then Some(env.goto.error)
    else if env.waitForTable.Threw? then Some(env.waitForTable.error)
    else if env.rows.ReadThrew? then Some(env.rows.failure)
    else if bossGiven && env.bossTitle.ReadThrew? then Some(env.bossTitle.failure)
    else if BossLabel(env, bossGiven) == "" && env.zoneTitle.ReadThrew? then Some(env.zoneTitle.failure)
    else None
  }

  /**
   * The `zoneName` of a session whose reads completed: the boss label when it
   * is non-empty, otherwise the zone title, `""` when neither is there. A
   * title read that throws never gets here: it sends the handler to `catch`.
   */
  function LabelOf(env: Env, bossGiven: bool): (r: string)
    requires GatherFailure(env, bossGiven).None?
    ensures BossLabel(env, bossGiven) != "" ==> r == BossLabel(env, bossGiven)
    ensures BossLabel(env, bossGiven) == "" ==> r == TitleText(env.zoneTitle.value)
  {
    var bossTitle := if bossGiven && env.bossTitle.Got? then env.bossTitle.value else None;
    var zoneTitle := if env.zoneTitle.Got? then env.zoneTitle.value else None;
    PageLabel(bossGiven, bossTitle, zoneTitle)
  }

  /** The 200 body: the zone id, label, URL, clock reading and the grouped records. */
  function ResultOf(zoneId: int, boss: Option<string>, env: Env): (r: Body)
    requires GatherFailure(env, BossGiven(boss)).None?
    ensures r.ResultBody? && r.zone == zoneId && r.url == TargetUrl(zoneId, boss)
    ensures r.zoneName == LabelOf(env, BossGiven(boss))
    ensures r.groups.Keys == GroupNames
  {
    ResultBody(zoneId, LabelOf(env, BossGiven(boss)), TargetUrl(zoneId, boss), env.timestamp, GroupJobs(ScrapedJobs(env.rows.value)))
  }

  /** The 500 answer for a thrown value. */
  function FailureOf(e: Thrown): Response {
    Response(500, FailureBody(ScrapeFailedMessage, Details(e)))
  }

  /**
   * A group of the 200 body lists exactly the records of usable table rows
   * whose job belongs to that group.
   */
  lemma ResultJobsNamed(zoneId: int, boss: Option<string>, env: Env, g: string, x: JobRecord)
    requires GatherFailure(env, BossGiven(boss)).None? && g in GroupNames
    ensures x in ResultOf(zoneId, boss, env).groups[g] <==> InGroup(x, g) && exists i :: YieldsAt(env.rows.value, i, x)
  {
    GroupJobsMembers(ScrapedJobs(env.rows.value), g, x);
    ScrapedJobsMembers(env.rows.value, x);
  }
}
