/**
 * The serverless handler: validate the zone, scrape the statistics page in
 * a `try` block, answer 500 on the first throw, and in `finally` close the
 * page and the browser that were opened, swallowing errors from either
 * close.
 */
module ApiHandler {
  import opened Wrappers
  import opened Roles
  import opened Scrape
  import opened Session

  /** The first throw of the `try` block, which resolves the browser executable before launching. */
  function TryFailure(env: Env, bossGiven: bool): Option<Thrown> {
    if env.executablePath.Threw? then Some(env.executablePath.error) else GatherFailure(env, bossGiven)
  }

  /** `browser` was assigned. */
  predicate BrowserOpened(env: Env) {
    env.executablePath.Done? && env.launch.Done?
  }

  /** `page` was assigned. */
  predicate PageOpened(env: Env) {
    BrowserOpened(env) && env.newPage.Done?
  }

  /** The `finally` block's calls: close the page if there is one, then the browser if there is one. */
  function Teardown(env: Env): (r: seq<Effect>)
    ensures ClosePage in r <==> PageOpened(env)
    ensures CloseBrowser in r <==> BrowserOpened(env)
    ensures forall i :: 0 <= i < |r| ==> IsClose(r[i])
    ensures forall i, j :: 0 <= i < j < |r| ==> r[i] == ClosePage && r[j] == CloseBrowser
  {
    (if PageOpened(env) then [ClosePage] else []) + (if BrowserOpened(env) then [CloseBrowser] else [])
  }

  /** A trace that starts by resolving the executable and has not closed anything yet. */
  predicate Untorn(effects: seq<Effect>) {
    |effects| > 0 && effects[0] == ResolveExecutable && forall i :: 0 <= i < |effects| ==> !IsClose(effects[i])
  }

  /**
   * A trace that went through the `try` block without closing anything,
   * navigated to `url` exactly when a page was opened, and ends with the
   * teardown.
   */
  predicate TornDown(effects: seq<Effect>, env: Env, url: string) {
    && |effects| > |Teardown(env)|
    && Untorn(effects[..|effects| - |Teardown(env)|])
    && effects[|effects| - |Teardown(env)|..] == Teardown(env)
    && (Goto(url) in effects <==> PageOpened(env))
  }

  /** The answer once the zone is accepted: 500 for the first throw, 200 with the result otherwise. */
  function Outcome(zoneId: int, boss: Option<string>, env: Env): (r: Response)
    ensures r.status == 200 || r.status == 500
    ensures r.status == 200 <==> TryFailure(env, BossGiven(boss)).None?
    ensures r.status == 200 ==> r.body.ResultBody? && r.body.zone == zoneId && r.body.url == TargetUrl(zoneId, boss)
    ensures r.status == 500 ==> r.body.FailureBody? && r.body.details == Details(TryFailure(env, BossGiven(boss)).value)
  {
    var failure := TryFailure(env, BossGiven(boss));
    if failure.Some? then FailureOf(failure.value)
    else Response(200, ResultOf(zoneId, boss, env))
  }

  /** The answer the handler sends. */
  function Answer(zone: Option<string>, boss: Option<string>, env: Env): (r: Response)
    ensures r.status == 400 <==> !CheckZone(zone).ValidZone?
    ensures r.status == 400 ==> r.body.ErrorBody?
  {
    var check := CheckZone(zone);
    if !check.ValidZone? then Rejection(check) else Outcome(check.id, boss, env)
  }

  /** The handler: refuse a missing or unsupported zone before any browser call, otherwise scrape. */
  method Handle(zone: Option<string>, boss: Option<string>, env: Env) returns (resp: Response, effects: seq<Effect>)
    ensures resp == Answer(zone, boss, env)
    ensures !CheckZone(zone).ValidZone? ==> effects == []
    ensures CheckZone(zone).ValidZone? ==> TornDown(effects, env, TargetUrl(CheckZone(zone).id, boss))
  {
    effects := [];
    var check := CheckZone(zone);
    if check.MissingZone? {
      resp := Response(400, ErrorBody(ZoneRequiredMessage));
      return;
    }
    if check.UnsupportedZone? {
      resp := Response(400, ErrorBody(InvalidZoneMessage));
      return;
    }
    resp, effects := Run(check.id, boss, env);
  }

  /**
   * Everything after the zone check: build the URL, run the `try` block,
   * answer 500 with the details of the first throw, and then run the
   * teardown whatever happened.
   */
  method Run(zoneId: int, boss: Option<string>, env: Env) returns (resp: Response, effects: seq<Effect>)
    ensures resp == Outcome(zoneId, boss, env)
    ensures TornDown(effects, env, TargetUrl(zoneId, boss))
  {
    var url := TargetUrl(zoneId, boss);
    var failure, rows, zoneName, browser, page;
    failure, rows, zoneName, browser, page, effects := RunTry(url, BossGiven(boss), env);
    if failure.None? {
      var groups := GroupJobsByScan(KeepNamed(ExtractRows(rows)));
      resp := Response(200, ResultBody(zoneId, zoneName, url, env.timestamp, groups));
    } else {
      // catch
      resp := Response(500, FailureBody(ScrapeFailedMessage, Details(failure.value)));
    }
    var body := effects;
    effects := Finally(page, browser, env, body);
    TornDownAfter(body, env, url);
  }

  /** The `finally` block: close the page if it was opened, then the browser if it was; a throw from either is dropped. */
  method Finally(page: bool, browser: bool, env: Env, before: seq<Effect>) returns (effects: seq<Effect>)
    requires page == PageOpened(env) && browser == BrowserOpened(env)
    ensures effects == before + Teardown(env)
  {
    effects := before;
    if page {
      effects := effects + [ClosePage];
    }
    if browser {
      effects := effects + [CloseBrowser];
    }
  }

  lemma TornDownAfter(body: seq<Effect>, env: Env, url: string)
    requires Untorn(body) && (Goto(url) in body <==> PageOpened(env))
    ensures TornDown(body + Teardown(env), env, url)
  {
    var effects := body + Teardown(env);
    assert effects[..|effects| - |Teardown(env)|] == body;
    assert effects[|effects| - |Teardown(env)|..] == Teardown(env);
    assert Goto(url) !in Teardown(env);
  }

  /**
   * The `try` block up to the response: each call runs only while nothing
   * has thrown. `browser` and `page` say which of the two were assigned.
   */
  method RunTry(url: string, bossGiven: bool, env: Env)
    returns (failure: Option<Thrown>, rows: seq<Row>, zoneName: string, browser: bool, page: bool, effects: seq<Effect>)
    ensures failure == TryFailure(env, bossGiven)
    ensures failure.None? ==> rows == env.rows.value && zoneName == LabelOf(env, bossGiven)
    ensures browser == BrowserOpened(env) && page == PageOpened(env)
    ensures Untorn(effects) && (Goto(url) in effects <==> page)
  {
    browser, page := false, false;
    failure := None;
    rows := [];
    zoneName := "";
    effects := [ResolveExecutable];
    if env.executablePath.Threw? {
      failure := Some(env.executablePath.error);
    }
    if failure.None? {
      effects := effects + [Launch];
      if env.launch.Threw? { failure := Some(env.launch.error); } else { browser := true; }
    }
    if failure.None? {
      effects := effects + [NewPage];
      if env.newPage.Threw? { failure := Some(env.newPage.error); } else { page := true; }
    }
    assert Untorn(effects) && Goto(url) !in effects;
    if failure.None? {
      effects := effects + [Goto(url)];
      if env.goto.Threw? { failure := Some(env.goto.error); }
    }
    assert Untorn(effects) && (Goto(url) in effects <==> page);
    if failure.None? {
      effects := effects + [WaitForTable];
      if env.waitForTable.Threw? { failure := Some(env.waitForTable.error); }
    }
    if failure.None? {
      effects := effects + [Settle, ReadRows];
      match env.rows
      case ReadThrew(e) => failure := Some(e);
      case Got(r) => rows := r;
    }
    assert Untorn(effects) && (Goto(url) in effects <==> page);
    if failure.None? && bossGiven {
      effects := effects + [ReadBossTitle];
      match env.bossTitle
      case ReadThrew(e) => failure := Some(e);
      case Got(t) => zoneName := TitleText(t);
    }
    if failure.None? && zoneName == "" {
      effects := effects + [ReadZoneTitle];
      match env.zoneTitle
      case ReadThrew(e) => failure := Some(e);
      case Got(t) => zoneName := TitleText(t);
    }
  }

  /**
   * Every request gets exactly one of three answers: 400 when the zone is
   * refused, 200 with the scraped result when no call threw, and otherwise
   * 500 carrying the details of the first throw and no partial result.
   */
  lemma AnswerStatus(zone: Option<string>, boss: Option<string>, env: Env)
    ensures var r := Answer(zone, boss, env);
      && r.status in {200, 400, 500}
      && (r.status == 400 <==> !CheckZone(zone).ValidZone?)
      && (r.status == 200 <==> CheckZone(zone).ValidZone? && TryFailure(env, BossGiven(boss)).None?)
      && (r.status == 200 ==> r.body.ResultBody? && r.body.zone == CheckZone(zone).id && r.body.url == TargetUrl(r.body.zone, boss))
      && (r.status == 500 ==> r.body == FailureBody(ScrapeFailedMessage, Details(TryFailure(env, BossGiven(boss)).value)))
  {
  }

  /** Teardown outcomes never reach the answer: changing how the closes turn out leaves it as it was. */
  lemma AnswerIgnoresTeardown(zone: Option<string>, boss: Option<string>, env: Env, closePage: Step, closeBrowser: Step)
    ensures Answer(zone, boss, env.(closePage := closePage, closeBrowser := closeBrowser)) == Answer(zone, boss, env)
  {
    var torn := env.(closePage := closePage, closeBrowser := closeBrowser);
    var bossGiven := BossGiven(boss);
    assert BossLabel(torn, bossGiven) == BossLabel(env, bossGiven);
    assert TryFailure(torn, bossGiven) == TryFailure(env, bossGiven);
    if GatherFailure(env, bossGiven).None? && CheckZone(zone).ValidZone? {
      assert ResultOf(CheckZone(zone).id, boss, torn) == ResultOf(CheckZone(zone).id, boss, env);
    }
  }
}
