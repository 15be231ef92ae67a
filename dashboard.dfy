/**
 * The integer and text helpers of the dashboard page: comma-stripped
 * parsing, the pie shares, boss-page detection, the boss-score ceiling,
 * the best job of a group, bar labels, colour and heading lookups, the
 * request URL and the zone heading.
 */
module Dashboard {
  import opened Wrappers
  import opened JsStrings
  import opened JsNumbers
  import opened Roles
  import opened Scrape
  import Session

  // ------------------------------------------------------ numbers on show

  /** A displayed number read as an integer once its thousands separators are removed; `None` is NaN. */
  function CommaInt(s: string): Option<int> {
    ParseInt(RemoveCommas(s))
  }

  /** The same reading with NaN replaced by 0. */
  function CommaIntOr0(s: string): int {
    CommaInt(s).GetOr(0)
  }

  /** The counts of the pie's slices, an unreadable count being 0. */
  function Counts(jobs: seq<JobRecord>): seq<int> {
    seq(|jobs|, i requires 0 <= i < |jobs| => CommaIntOr0(jobs[i].count))
  }

  function Sum(xs: seq<int>): int {
    if xs == [] then 0 else Sum(xs[..|xs| - 1]) + xs[|xs| - 1]
  }

  /** The pie total: the sum of the slice counts. */
  function PieTotal(jobs: seq<JobRecord>): int {
    Sum(Counts(jobs))
  }

  /** A slice's share of the pie: its count over the total, or 0 when the total is not positive. */
  function Share(count: int, total: int): (r: real)
    ensures total <= 0 ==> r == 0.0
    ensures 0 <= count <= total ==> 0.0 <= r <= 1.0
    ensures 0 < total && count == total ==> r == 1.0
  {
    if total > 0 then count as real / total as real else 0.0
  }

  /** The sum of the shares of all slices. */
  function ShareSum(counts: seq<int>, total: int): real {
    if counts == [] then 0.0
    else ShareSum(counts[..|counts| - 1], total) + Share(counts[|counts| - 1], total)
  }

  /** The tooltip's percentage: a number shown with one decimal, or the fixed text `'0.0'`. */
  datatype Percent = OneDecimal(value: real) | Fixed(text: string)

  function TooltipPercent(count: int, total: int): (r: Percent)
    ensures total <= 0 ==> r == Fixed("0.0")
    ensures total > 0 ==> r == OneDecimal(Share(count, total) * 100.0)
    ensures 0 <= count <= total ==> r.Fixed? || 0.0 <= r.value <= 100.0
  {
    if total > 0 then OneDecimal(count as real / total as real * 100.0) else Fixed("0.0")
  }

  // ------------------------------------------------------------ page data

  /** The result the page holds, its groups in the order `Object.entries` lists them. */
  datatype PageData = PageData(zone: int, zoneName: string, url: string, timestamp: string, groups: seq<(string, seq<JobRecord>)>)

  /** The page's copy of a 200 body, its groups in their insertion order. */
  function Received(b: Body): PageData
    requires b.ResultBody? && b.groups.Keys == GroupNames
  {
    PageData(b.zone, b.zoneName, b.url, b.timestamp, seq(|GroupOrder|, i requires 0 <= i < |GroupOrder| => (GroupOrder[i], b.groups[GroupOrder[i]])))
  }

  /** A boss page: a result is held, its URL is non-empty and mentions "boss". */
  predicate IsBossPage(data: Option<PageData>) {
    data.Some? && data.value.url != "" && Includes(data.value.url, "boss")
  }

  /** Every record of every group, group by group. */
  function AllJobs(groups: seq<(string, seq<JobRecord>)>): seq<JobRecord> {
    if groups == [] then [] else AllJobs(groups[..|groups| - 1]) + groups[|groups| - 1].1
  }

  /** The comma-stripped scores of `jobs`, an unreadable one counting as 0. */
  function Scores(jobs: seq<JobRecord>): seq<int> {
    seq(|jobs|, i requires 0 <= i < |jobs| => CommaIntOr0(jobs[i].score))
  }

  /** The largest of `xs`; `None` is the minus infinity that JavaScript's maximum gives for no arguments. */
  function MaxOf(xs: seq<int>): (r: Option<int>)
    ensures r.None? <==> xs == []
    ensures r.Some? ==> r.value in xs && forall i :: 0 <= i < |xs| ==> xs[i] <= r.value
  {
    if xs == [] then None
    else
      var rest := MaxOf(xs[..|xs| - 1]);
      var last := xs[|xs| - 1];
      if rest.None? || last > rest.value then Some(last) else rest
  }

  /**
   * `maxBossScore`: 100 off boss pages; on a boss page the largest score of
   * any record of any group, lifted to 1 when it is smaller or there are no
   * records at all.
   */
  method MaxBossScore(data: Option<PageData>) returns (maxBossScore: int)
    ensures maxBossScore >= 1
    ensures !IsBossPage(data) ==> maxBossScore == 100
    ensures IsBossPage(data) ==>
      && (forall j :: j in AllJobs(data.value.groups) ==> CommaIntOr0(j.score) <= maxBossScore)
      && (maxBossScore == 1 || exists j :: j in AllJobs(data.value.groups) && CommaIntOr0(j.score) == maxBossScore)
  {
    maxBossScore := 100;
    if IsBossPage(data) {
      var jobs := AllJobs(data.value.groups);
      var peak := MaxOf(Scores(jobs));  // None stands for -Infinity
      if peak.None? || peak.value < 1 {
        peak := Some(1);
      } else {
        var i :| 0 <= i < |jobs| && Scores(jobs)[i] == peak.value;
        assert jobs[i] in jobs;
      }
      maxBossScore := peak.value;
      forall j | j in jobs
        ensures CommaIntOr0(j.score) <= maxBossScore
      {
        var i :| 0 <= i < |jobs| && jobs[i] == j;
        assert Scores(jobs)[i] == CommaIntOr0(j.score);
      }
    }
  }

  // ------------------------------------------------------------- best job

  /** Strictly greater on parsed scores; any comparison involving NaN is false. */
  predicate Greater(a: Option<int>, b: Option<int>) {
    a.Some? && b.Some? && a.value > b.value
  }

  /** The score the boss-mode reducer compares: the comma-stripped `parseInt` of the score text. */
  function BossScore(j: JobRecord): Option<int> {
    CommaInt(j.score)
  }

  /** One reduction step: the accumulator survives only when its score is strictly greater. */
  function Keep(a: JobRecord, b: JobRecord, score: JobRecord -> Option<int>): JobRecord {
    if Greater(score(a), score(b)) then a else b
  }

  /**
   * The reduction of `jobs` by `Keep`. `None` is the `TypeError` that a
   * reduction without an initial value throws on an empty group.
   */
  function ReduceBest(jobs: seq<JobRecord>, score: JobRecord -> Option<int>): (r: Option<JobRecord>)
    ensures r.None? <==> jobs == []
    ensures r.Some? ==> r.value in jobs
  {
    if jobs == [] then None
    else if |jobs| == 1 then Some(jobs[0])
    else
      var acc := ReduceBest(jobs[..|jobs| - 1], score);
      Some(Keep(acc.value, jobs[|jobs| - 1], score))
  }

  /** The best job of a group on a boss page. */
  function BestJob(jobs: seq<JobRecord>): (r: Option<JobRecord>)
    ensures r.None? <==> jobs == []
    ensures r.Some? ==> r.value in jobs
  {
    ReduceBest(jobs, BossScore)
  }

  predicate AllScored(jobs: seq<JobRecord>, score: JobRecord -> Option<int>) {
    forall i :: 0 <= i < |jobs| ==> score(jobs[i]).Some?
  }

  /** Position `k` holds a largest score and every later position a strictly smaller one. */
  predicate LastMaxAt(jobs: seq<JobRecord>, score: JobRecord -> Option<int>, k: int) {
    && 0 <= k < |jobs|
    && (forall i :: 0 <= i < |jobs| ==> score(jobs[i]).GetOr(0) <= score(jobs[k]).GetOr(0))
    && (forall i :: k < i < |jobs| ==> score(jobs[i]).GetOr(0) < score(jobs[k]).GetOr(0))
  }

  /** When every score parses, the reduction yields a largest score, the last of any ties. */
  lemma {:induction false} ReduceBestIsLastMax(jobs: seq<JobRecord>, score: JobRecord -> Option<int>)
    requires jobs != [] && AllScored(jobs, score)
    ensures exists k :: LastMaxAt(jobs, score, k) && ReduceBest(jobs, score) == Some(jobs[k])
  {
    if |jobs| == 1 {
      assert LastMaxAt(jobs, score, 0);
    } else {
      var init, last := jobs[..|jobs| - 1], jobs[|jobs| - 1];
      assert AllScored(init, score) by {
        forall i | 0 <= i < |init| ensures score(init[i]).Some? {
          assert init[i] == jobs[i];
        }
      }
      ReduceBestIsLastMax(init, score);
      var k :| LastMaxAt(init, score, k) && ReduceBest(init, score) == Some(init[k]);
      assert init[k] == jobs[k];
      if Greater(score(init[k]), score(last)) {
        assert LastMaxAt(jobs, score, k) by {
          forall i | 0 <= i < |jobs| ensures score(jobs[i]).GetOr(0) <= score(jobs[k]).GetOr(0) {
            if i < |init| { assert jobs[i] == init[i]; }
          }
          forall i | k < i < |jobs| ensures score(jobs[i]).GetOr(0) < score(jobs[k]).GetOr(0) {
            if i < |init| { assert jobs[i] == init[i]; }
          }
        }
      } else {
        var n := |jobs| - 1;
        assert LastMaxAt(jobs, score, n) by {
          forall i | 0 <= i < |jobs| ensures score(jobs[i]).GetOr(0) <= score(jobs[n]).GetOr(0) {
            if i < |init| { assert jobs[i] == init[i]; }
          }
        }
      }
    }
  }

  /** On a boss page, when every score parses, the best job has the largest score and is the last of any ties. */
  lemma BestJobIsLastMax(jobs: seq<JobRecord>)
    requires jobs != [] && AllScored(jobs, BossScore)
    ensures exists k :: LastMaxAt(jobs, BossScore, k) && BestJob(jobs) == Some(jobs[k])
  {
    ReduceBestIsLastMax(jobs, BossScore);
  }

  /** A last record whose score is `NaN` always wins the reduction, since comparing with it is false. */
  lemma NaNLastWins(jobs: seq<JobRecord>, score: JobRecord -> Option<int>)
    requires jobs != [] && score(jobs[|jobs| - 1]).None?
    ensures ReduceBest(jobs, score) == Some(jobs[|jobs| - 1])
  {
  }

  // --------------------------------------------------------- labels, colours

  /** The text shown at the end of a bar: the score, unless it is missing or NaN. */
  function BarLabel(score: string): (r: string)
    ensures r != "" && r != "NaN"
    ensures score != "" && score != "NaN" ==> r == score
    ensures score == "" || score == "NaN" ==> r == "-"
  {
    if score != "" && score != "NaN" then score else "-"
  }

  const DefaultColor := "#3B82F6"

  const JobColors: map<string, string> := map[
    "viper" := "#108210", "dragoon" := "#4164CD", "monk" := "#D69C00", "black mage" := "#A579D6",
    "samurai" := "#E46D04", "reaper" := "#965A90", "pictomancer" := "#FC92E1", "ninja" := "#AF1964",
    "red mage" := "#E87B7B", "summoner" := "#2D9B78", "bard" := "#91BA5E", "dancer" := "#E2B0AF",
    "machinist" := "#6EE1D6", "gunbreaker" := "#796D30", "paladin" := "#A8D2E6", "dark knight" := "#D126CC",
    "warrior" := "#CF2621", "astrologian" := "#FFE74A", "white mage" := "#FFF0DC", "sage" := "#80A0F0",
    "scholar" := "#8657FF"]

  /** A job's colour, looked up by its trimmed lower-case name, with the default blue when there is none. */
  function JobColor(job: string): (r: string)
    ensures NameKey(job) in JobColors ==> r == JobColors[NameKey(job)]
    ensures r == DefaultColor <==> NameKey(job) !in JobColors
  {
    var key := NameKey(job);
    if key in JobColors then JobColors[key] else DefaultColor
  }

  const GroupLabels: map<string, string> := map["melee" := "Melee", "caster" := "Caster", "ranged" := "Ranged", "tank" := "Tank", "healer" := "Healer"]

  /** A group's heading; a key without a label is shown as itself. */
  function GroupLabel(group: string): (r: string)
    ensures group !in GroupLabels ==> r == group
  {
    if group in GroupLabels && GroupLabels[group] != "" then GroupLabels[group] else group
  }

  function UpperChar(c: char): char {
    if 'a' <= c <= 'z' then (c as int - 32) as char else c
  }

  /** The key with its first letter capitalised. */
  function Capitalised(s: string): string {
    if s == [] then [] else [UpperChar(s[0])] + s[1..]
  }

  /** Each of the five keys of a result is headed by its own name, capitalised. */
  lemma GroupHeadings()
    ensures forall g :: g in GroupNames ==> GroupLabel(g) == Capitalised(g)
  {
    forall g | g in GroupNames
      ensures GroupLabel(g) == Capitalised(g)
    {
      assert g in GroupLabels && GroupLabels[g] != "";
      assert [UpperChar(g[0])] + g[1..] == GroupLabels[g];
    }
  }

  /** Every job named in a group list has its own colour. */
  lemma GroupedNamesColoured()
    ensures forall k, n :: 0 <= k < |GroupTable| && n in GroupTable[k].members ==> n in JobColors
  {
  }

  /** A record that reaches any group is never drawn in the default colour. */
  lemma GroupedJobColoured(jobs: seq<JobRecord>, g: string, x: JobRecord)
    requires g in GroupJobs(jobs) && x in GroupJobs(jobs)[g]
    ensures JobColor(x.job) != DefaultColor
  {
    GroupJobsMembers(jobs, g, x);
    GroupOfExactly(x.job);
    GroupedNamesColoured();
    var k :| 0 <= k < |GroupTable| && NameKey(x.job) in GroupTable[k].members;
  }

  // ---------------------------------------------------- request and heading

  /** The boss text the handler receives: an absent or zero id sends none. */
  function BossQuery(bossId: Option<int>): (r: Option<string>)
    ensures BossGiven(r) <==> bossId.Some? && bossId.value != 0
  {
    if bossId.Some? && bossId.value != 0 then Some(IntText(bossId.value)) else None
  }

  /** `fetchFFLogsData`'s request URL. */
  function FetchUrl(zoneId: int, bossId: Option<int>): string {
    var boss := BossQuery(bossId);
    "/api/fflogs?zone=" + IntText(zoneId) + (if boss.Some? then "&boss=" + boss.value else "")
  }

  /** `getZoneName`. */
  function ZoneTitle(zoneId: int): (r: string)
    ensures r != ""
  {
    if zoneId == 68 then "Zone 68 (Endwalker Raid)"
    else if zoneId == 65 then "Zone 65 (Endwalker Raid)"
    else "Zone " + IntText(zoneId)
  }

  /** The heading: the received label, or the zone's own name when the label is empty. */
  function Heading(data: PageData): (r: string)
    ensures r != ""
    ensures data.zoneName != "" ==> r == data.zoneName
    ensures data.zoneName == "" ==> r == ZoneTitle(data.zone)
  {
    if data.zoneName != "" then data.zoneName else ZoneTitle(data.zone)
  }

  // ---------------------------------------------------------------- lemmas

  /** Commas anywhere in a number are ignored. */
  lemma CommaIgnored(a: string, b: string)
    ensures CommaInt(a + "," + b) == CommaInt(a + b)
  {
    RemoveCommasAppend(a + ",", b);
    RemoveCommasAppend(a, ",");
    RemoveCommasAppend(a, b);
    assert ","[1..] == [] && RemoveCommas(",") == RemoveCommas([]);
    assert RemoveCommas(a + ",") == RemoveCommas(a);
    assert RemoveCommas(a + "," + b) == RemoveCommas(a + b);
  }

  lemma {:induction false} SumAppend(a: seq<int>, b: seq<int>)
    ensures Sum(a + b) == Sum(a) + Sum(b)
    decreases |b|
  {
    if b == [] {
      assert a + b == a;
    } else {
      assert (a + b)[..|a + b| - 1] == a + b[..|b| - 1];
      SumAppend(a, b[..|b| - 1]);
    }
  }

  /** The pie total of two lists of records is the sum of their totals. */
  lemma PieTotalAppend(a: seq<JobRecord>, b: seq<JobRecord>)
    ensures PieTotal(a + b) == PieTotal(a) + PieTotal(b)
  {
    var ca, cb, cab := Counts(a), Counts(b), Counts(a + b);
    forall i | 0 <= i < |cab|
      ensures cab[i] == (ca + cb)[i]
    {
      if i < |a| {
        assert (a + b)[i] == a[i];
      } else {
        assert (a + b)[i] == b[i - |a|];
      }
    }
    assert cab == ca + cb;
    SumAppend(ca, cb);
  }

  lemma {:induction false} ShareSumIs(counts: seq<int>, total: int)
    ensures ShareSum(counts, total) == if total > 0 then Sum(counts) as real / total as real else 0.0
  {
    if counts != [] {
      var init, last := counts[..|counts| - 1], counts[|counts| - 1];
      ShareSumIs(init, total);
      assert ShareSum(counts, total) == ShareSum(init, total) + Share(last, total);
      assert Sum(counts) == Sum(init) + last;
      if total > 0 {
        DivideSum(Sum(init), last, total);
      }
    }
  }

  lemma DivideSum(a: int, b: int, total: int)
    requires total > 0
    ensures a as real / total as real + b as real / total as real == (a + b) as real / total as real
  {
  }

  /** When the total is positive the slices make up the whole pie. */
  lemma SharesSumToOne(counts: seq<int>)
    requires Sum(counts) > 0
    ensures ShareSum(counts, Sum(counts)) == 1.0
  {
    ShareSumIs(counts, Sum(counts));
    var t := Sum(counts) as real;
    assert t / t == 1.0;
  }

  /** When the total is zero every slice is empty and every tooltip reads `'0.0'`. */
  lemma ZeroTotal(counts: seq<int>)
    requires Sum(counts) == 0
    ensures forall i :: 0 <= i < |counts| ==> Share(counts[i], Sum(counts)) == 0.0
    ensures forall i :: 0 <= i < |counts| ==> TooltipPercent(counts[i], Sum(counts)) == Fixed("0.0")
  {
  }

  /** The statistics URL names a boss exactly when the request carried a non-empty boss. */
  lemma BossUrlIffBoss(zoneId: int, boss: Option<string>)
    ensures Includes(TargetUrl(zoneId, boss), "boss") <==> BossGiven(boss)
  {
    var base := ZoneUrl(zoneId);
    assert 'b' !in StatisticsBase && 'b' !in StatisticsQuery;
    assert 'b' !in base by {
      var digits := if zoneId == 68 then "68" else "65";
      assert base == StatisticsBase + digits + StatisticsQuery;
    }
    if BossGiven(boss) {
      assert TargetUrl(zoneId, boss) == (base + "&") + "boss" + ("=" + boss.value);
      IncludesMiddle(base + "&", "boss", "=" + boss.value);
    } else {
      IncludesNeedsFirst(base, "boss");
    }
  }

  /** The page treats a received result as a boss page exactly when the request carried a non-empty boss. */
  lemma BossPageIffBoss(zoneId: int, boss: Option<string>, env: Session.Env)
    requires Session.GatherFailure(env, BossGiven(boss)).None?
    ensures IsBossPage(Some(Received(Session.ResultOf(zoneId, boss, env)))) <==> BossGiven(boss)
  {
    BossUrlIffBoss(zoneId, boss);
  }

  /**
   * The page's requests are ones the handler accepts: the zone text parses
   * back to the zone, and a boss page follows exactly when a non-zero boss
   * id was sent.
   */
  lemma RequestAccepted(zoneId: int, bossId: Option<int>)
    requires zoneId == 65 || zoneId == 68
    ensures CheckZone(Some(IntText(zoneId))) == ValidZone(zoneId)
    ensures Includes(TargetUrl(zoneId, BossQuery(bossId)), "boss") <==> bossId.Some? && bossId.value != 0
  {
    ZoneTextRoundTrip(zoneId);
    BossUrlIffBoss(zoneId, BossQuery(bossId));
  }

  /** An integer's text is made of digits and at most a minus sign. */
  lemma IntTextChars(n: int)
    ensures forall c :: c in IntText(n) ==> c == '-' || IsDigitIn(c, 10)
  {
    var d := NatText(if n < 0 then -n else n);
    assert forall i :: 0 <= i < |d| ==> IsDigitIn(d[i], 10);
  }

  lemma IntTextNoSpace(n: int)
    ensures ' ' !in IntText(n)
  {
    IntTextChars(n);
  }

  lemma FetchBaseNoAmpersand(zoneId: int)
    ensures '&' !in "/api/fflogs?zone=" + IntText(zoneId)
  {
    IntTextChars(zoneId);
    assert '&' !in "/api/fflogs?zone=";
  }

  /** The page's request names a boss exactly when a non-zero boss id was passed. */
  lemma FetchUrlNamesBoss(zoneId: int, bossId: Option<int>)
    ensures Includes(FetchUrl(zoneId, bossId), "&boss=") <==> bossId.Some? && bossId.value != 0
  {
    FetchBaseNoAmpersand(zoneId);
    if bossId.Some? && bossId.value != 0 {
      FetchUrlWithBoss(zoneId, bossId.value);
    } else {
      assert FetchUrl(zoneId, bossId) == "/api/fflogs?zone=" + IntText(zoneId);
      IncludesNeedsFirst("/api/fflogs?zone=" + IntText(zoneId), "&boss=");
    }
  }

  lemma FetchUrlWithBoss(zoneId: int, bossId: int)
    requires bossId != 0
    ensures Includes(FetchUrl(zoneId, Some(bossId)), "&boss=")
  {
    var base := "/api/fflogs?zone=" + IntText(zoneId);
    IncludesMiddle(base, "&boss=", IntText(bossId));
    assert FetchUrl(zoneId, Some(bossId)) == base + "&boss=" + IntText(bossId);
  }

  /** Different zones get different fallback headings. */
  lemma ZoneTitleInjective(a: int, b: int)
    requires ZoneTitle(a) == ZoneTitle(b)
    ensures a == b
  {
    IntTextNoSpace(a);
    IntTextNoSpace(b);
    var fixed68, fixed65 := "Zone 68 (Endwalker Raid)", "Zone 65 (Endwalker Raid)";
    assert fixed68[..5] == "Zone " && fixed68[7] == ' ';
    assert fixed65[..5] == "Zone " && fixed65[7] == ' ';
    assert fixed68 != fixed65 by { assert fixed68[6] != fixed65[6]; }
    if a != 68 && a != 65 && b != 68 && b != 65 {
      assert IntText(a) == ZoneTitle(a)[5..];
      assert IntText(b) == ZoneTitle(b)[5..];
      IntTextInjective(a, b);
    }
  }
}
