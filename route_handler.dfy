/**
 * The Next.js `GET` route: the same scrape as the serverless handler,
 * except that it closes the browser inside the `try` block once the reads
 * are done, never closes the page itself, and in `catch` closes the browser
 * again without guarding that call.
 */
module RouteHandler {
  import opened Wrappers
  import opened Roles
  import opened Scrape
  import opened Session
  import ApiHandler

  /** How a call to `GET` settles: with a response, or with its promise rejected. */
  datatype Outcome = Responded(response: Response) | Rejected(error: Thrown)

  /** `browser` was assigned. */
  predicate Opened(env: Env) {
    env.launch.Done?
  }

  /** The first throw of the `try` block, whose last call is the browser close after the reads. */
  function RouteFailure(env: Env, bossGiven: bool): (r: Option<Thrown>)
    ensures r.None? <==> GatherFailure(env, bossGiven).None? && env.closeBrowser.Done?
  {
    var gathered := GatherFailure(env, bossGiven);
    if gathered.Some? then gathered
    else if env.closeBrowser.Threw? then Some(env.closeBrowser.error)
    else None
  }

  /**
   * The outcome of the close in `catch`: the browser's first close when the
   * throw came before the close in `try`, its second one otherwise.
   */
  function CatchClose(env: Env, bossGiven: bool): Step {
    if GatherFailure(env, bossGiven).Some? then env.closeBrowser else env.closeBrowserAgain
  }

  /** How many `close` calls reach the browser. */
  function CloseCount(zone: Option<string>, boss: Option<string>, env: Env): nat {
    if !CheckZone(zone).ValidZone? || !Opened(env) then 0
    else if GatherFailure(env, BossGiven(boss)).None? && env.closeBrowser.Threw? then 2
    else 1
  }

  /** The response the route means to give. */
  function Intended(zone: Option<string>, boss: Option<string>, env: Env): (r: Response)
    ensures r.status in {200, 400, 500}
    ensures r.status == 400 <==> !CheckZone(zone).ValidZone?
    ensures r.status == 200 <==> CheckZone(zone).ValidZone? && RouteFailure(env, BossGiven(boss)).None?
    ensures r.status == 500 ==> r.body == FailureBody(ScrapeFailedMessage, Details(RouteFailure(env, BossGiven(boss)).value))
  {
    var check := CheckZone(zone);
    if !check.ValidZone? then Rejection(check)
    else
      var failure := RouteFailure(env, BossGiven(boss));
      if failure.Some? then FailureOf(failure.value)
      else Response(200, ResultOf(check.id, boss, env))
  }

  /**
   * `GET` as written. When the `try` block throws after the browser was
   * launched and the unguarded close in `catch` throws too, the route sends
   * no response at all and its promise rejects with the close's error.
   */
  method Get(zone: Option<string>, boss: Option<string>, env: Env) returns (out: Outcome, effects: seq<Effect>)
    ensures out.Rejected? <==>
      CheckZone(zone).ValidZone? && Opened(env) && RouteFailure(env, BossGiven(boss)).Some? && CatchClose(env, BossGiven(boss)).Threw?
    ensures out.Rejected? ==> out.error == CatchClose(env, BossGiven(boss)).error
    ensures out.Responded? ==> out.response == Intended(zone, boss, env)
    ensures !CheckZone(zone).ValidZone? ==> effects == []
    ensures multiset(effects)[CloseBrowser] == CloseCount(zone, boss, env)
    ensures ClosePage !in effects
  {
    effects := [];
    var check := CheckZone(zone);
    if check.MissingZone? {
      out := Responded(Response(400, ErrorBody(ZoneRequiredMessage)));
      return;
    }
    if check.UnsupportedZone? {
      out := Responded(Response(400, ErrorBody(InvalidZoneMessage)));
      return;
    }
    var url := TargetUrl(check.id, boss);
    var failure, rows, zoneName, browser;
    failure, rows, zoneName, browser, effects := RunTry(url, BossGiven(boss), env);
    if failure.None? {
      var groups := GroupJobsByScan(KeepNamed(ExtractRows(rows)));
      out := Responded(Response(200, ResultBody(check.id, zoneName, url, env.timestamp, groups)));
    } else {
      // catch: a launched browser is closed again, with no guard around the close
      var close := CatchClose(env, BossGiven(boss));
      if browser {
        effects := effects + [CloseBrowser];
      }
      if browser && close.Threw? {
        out := Rejected(close.error);
      } else {
        out := Responded(Response(500, FailureBody(ScrapeFailedMessage, Details(failure.value))));
      }
    }
  }

  /** `GET` with the close in `catch` guarded, so that its error is dropped as in the serverless handler. */
  method GetGuarded(zone: Option<string>, boss: Option<string>, env: Env) returns (out: Outcome, effects: seq<Effect>)
    ensures out == Responded(Intended(zone, boss, env))
    ensures !CheckZone(zone).ValidZone? ==> effects == []
    ensures multiset(effects)[CloseBrowser] == CloseCount(zone, boss, env)
    ensures ClosePage !in effects
  {
    effects := [];
    var check := CheckZone(zone);
    if check.MissingZone? {
      out := Responded(Response(400, ErrorBody(ZoneRequiredMessage)));
      return;
    }
    if check.UnsupportedZone? {
      out := Responded(Response(400, ErrorBody(InvalidZoneMessage)));
      return;
    }
    var url := TargetUrl(check.id, boss);
    var failure, rows, zoneName, browser;
    failure, rows, zoneName, browser, effects := RunTry(url, BossGiven(boss), env);
    if failure.None? {
      var groups := GroupJobsByScan(KeepNamed(ExtractRows(rows)));
      out := Responded(Response(200, ResultBody(check.id, zoneName, url, env.timestamp, groups)));
    } else {
      if browser {
        effects := effects + [CloseBrowser];
      }
      out := Responded(Response(500, FailureBody(ScrapeFailedMessage, Details(failure.value))));
    }
  }

  /** The `try` block of `GET` up to the response, ending with the browser close after the reads. */
  method RunTry(url: string, bossGiven: bool, env: Env)
    returns (failure: Option<Thrown>, rows: seq<Row>, zoneName: string, browser: bool, effects: seq<Effect>)
    ensures failure == RouteFailure(env, bossGiven)
    ensures failure.None? ==> rows == env.rows.value && zoneName == LabelOf(env, bossGiven)
    ensures browser == Opened(env)
    ensures multiset(effects)[CloseBrowser] == (if GatherFailure(env, bossGiven).None? then 1 else 0)
    ensures ClosePage !in effects
  {
    failure, rows, zoneName, browser, effects := Gather(url, bossGiven, env);
    if failure.None? {
      effects := effects + [CloseBrowser];
      if env.closeBrowser.Threw? { failure := Some(env.closeBrowser.error); }
    }
  }

  /** The calls of the `try` block from the launch to the title reads. */
  method Gather(url: string, bossGiven: bool, env: Env)
    returns (failure: Option<Thrown>, rows: seq<Row>, zoneName: string, browser: bool, effects: seq<Effect>)
    ensures failure == GatherFailure(env, bossGiven)
    ensures failure.None? ==> rows == env.rows.value && zoneName == LabelOf(env, bossGiven)
    ensures browser == Opened(env)
    ensures CloseBrowser !in effects && ClosePage !in effects
  {
    browser := false;
    failure := None;
    rows := [];
    zoneName := "";
    effects := [Launch];
    if env.launch.Threw? { failure := Some(env.launch.error); } else { browser := true; }
    if failure.None? {
      effects := effects + [NewPage];
      if env.newPage.Threw? { failure := Some(env.newPage.error); }
    }
    if failure.None? {
      effects := effects + [Goto(url)];
      if env.goto.Threw? { failure := Some(env.goto.error); }
    }
    if failure.None? {
      effects := effects + [WaitForTable];
      if env.waitForTable.Threw? { failure := Some(env.waitForTable.error); }
    }
    assert CloseBrowser !in effects && ClosePage !in effects;
    if failure.None? {
      effects := effects + [ReadRows];
      match env.rows
      case ReadThrew(e) => failure := Some(e);
      case Got(r) => rows := r;
    }
    if failure.None? && bossGiven {
      effects := effects + [ReadBossTitle];
      match env.bossTitle
      case ReadThrew(e) => failure := Some(e);
      case Got(t) => zoneName := TitleText(t);
    }
    if failure.None? && zoneName == "" {
      effects := effects + [ReadZoneTitle];
      match env.zoneTitle
      case ReadThrew(e) => failure := Some(e);
      case Got(t) => zoneName := TitleText(t);
    }
  }

  /**
   * A request that makes `GET` reject: zone 68, navigation times out, and
   * closing the browser in `catch` fails as well.
   */
  method UnguardedCloseRejects() returns (out: Outcome)
    ensures out == Rejected(ErrorObject("Target closed"))
  {
    var env := Env(Done, Done, Done, Threw(ErrorObject("Navigation timeout")), Done,
                   Got([]), Got(None), Got(None), Done, Threw(ErrorObject("Target closed")), Done, "");
    PlainZonesAccepted();
    var effects;
    out, effects := Get(Some("68"), None, env);
  }

  /** Where the route's close after the reads succeeds and the executable resolves, both handlers answer alike. */
  lemma HandlersAgree(zone: Option<string>, boss: Option<string>, env: Env)
    requires env.executablePath.Done? && env.closeBrowser.Done?
    ensures Intended(zone, boss, env) == ApiHandler.Answer(zone, boss, env)
  {
  }

  /** A throw from the close after the reads turns a complete scrape into a 500 with that error's details. */
  lemma LateCloseFails(zone: Option<string>, boss: Option<string>, env: Env, e: Thrown)
    requires CheckZone(zone).ValidZone? && GatherFailure(env, BossGiven(boss)).None?
    requires env.closeBrowser == Threw(e)
    ensures Intended(zone, boss, env) == Response(500, FailureBody(ScrapeFailedMessage, Details(e)))
  {
  }
}
