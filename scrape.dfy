/**
 * The pure parts of the scrape request that both handlers share: checking the
 * `zone` parameter, building the statistics URL, turning table rows into job
 * records, choosing the page label, and the shape of the JSON responses.
 */
module Scrape {
  import opened Wrappers
  import opened JsStrings
  import opened JsNumbers
  import opened Roles

  // ------------------------------------------------------------ responses

  const ZoneRequiredMessage := "Zone parameter is required"
  const InvalidZoneMessage := "Invalid zone ID. Only zones 65 and 68 are supported."
  const ScrapeFailedMessage := "Failed to scrape FFLogs data"

  /** The JSON bodies the handlers send. */
  datatype Body =
    | ErrorBody(error: string)
    | FailureBody(error: string, details: string)
    | ResultBody(zone: int, zoneName: string, url: string, timestamp: string, groups: map<string, seq<JobRecord>>)

  datatype Response = Response(status: int, body: Body)

  // ------------------------------------------------------- zone parameter

  /** What the `zone` check decides: answer 400 for a missing or unsupported zone, or go on with its parsed id. */
  datatype ZoneCheck = MissingZone | UnsupportedZone | ValidZone(id: int)

  /** A query value that counts as missing: absent or empty. */
  predicate Blank(v: Option<string>) {
    v.None? || v.value == ""
  }

  /** The zone check: a missing zone, a zone that parses outside {65, 68}, or an accepted zone id. */
  function CheckZone(zone: Option<string>): (r: ZoneCheck)
    ensures r == MissingZone <==> Blank(zone)
    ensures r.ValidZone? ==> (r.id == 65 || r.id == 68) && ParseInt(zone.value) == Some(r.id)
    ensures !Blank(zone) && ParseInt(zone.value) in {Some(65), Some(68)} ==> r.ValidZone?
  {
    if Blank(zone) then MissingZone
    else
      var id := ParseInt(zone.value);
      if id == Some(65) || id == Some(68) then ValidZone(id.value) else UnsupportedZone
  }

  /** The 400 answer for a rejected zone. */
  function Rejection(check: ZoneCheck): (r: Response)
    requires !check.ValidZone?
    ensures r.status == 400 && r.body.ErrorBody?
    ensures r.body.error == ZoneRequiredMessage <==> check == MissingZone
    ensures r.body.error == InvalidZoneMessage <==> check == UnsupportedZone
  {
    if check == MissingZone then Response(400, ErrorBody(ZoneRequiredMessage))
    else Response(400, ErrorBody(InvalidZoneMessage))
  }

  // ------------------------------------------------------------ target URL

  const StatisticsBase := "https://www.fflogs.com/zone/statistics/"
  const StatisticsQuery := "?class=Any&dataset=50"
  const BossField := "&boss="

  /** Whether the query value counts as a boss: present and non-empty. */
  predicate BossGiven(boss: Option<string>) {
    !Blank(boss)
  }

  /** The boss text the URL carries, `""` when there is none. */
  function BossText(boss: Option<string>): string {
    if BossGiven(boss) then boss.value else ""
  }

  /** The URL without its boss field: zone 68's, or zone 65's for every other id. */
  function ZoneUrl(zoneId: int): string {
    StatisticsBase + (if zoneId == 68 then "68" else "65") + StatisticsQuery
  }

  /** The statistics page URL, built from the parsed zone id and the raw `boss` text. */
  function TargetUrl(zoneId: int, boss: Option<string>): string {
    ZoneUrl(zoneId) + (if BossGiven(boss) then BossField + boss.value else "")
  }

  /** Reads a statistics URL back into its zone id and boss text; the inverse of `TargetUrl`. */
  function ReadTargetUrl(url: string): Option<(int, string)> {
    var p68, p65 := ZoneUrl(68), ZoneUrl(65);
    if |url| >= |p68| && url[..|p68|] == p68 then ReadBossField(68, url[|p68|..])
    else if |url| >= |p65| && url[..|p65|] == p65 then ReadBossField(65, url[|p65|..])
    else None
  }

  function ReadBossField(zoneId: int, rest: string): Option<(int, string)> {
    if rest == [] then Some((zoneId, ""))
    else if |rest| > |BossField| && rest[..|BossField|] == BossField then Some((zoneId, rest[|BossField|..]))
    else None
  }

  // ----------------------------------------------------------- table rows

  /** The texts of one `<tr>`'s `<td>` cells. */
  type Row = seq<string>

  /** A row of at least four cells: cells 0, 1 and 3, trimmed, are the job, score and count. */
  function RecordOf(row: Row): JobRecord
    requires |row| >= 4
  {
    JobRecord(Trim(row[0]), Trim(row[1]), Trim(row[3]))
  }

  /** The extraction run in the page: rows with fewer than four cells are dropped, the rest become trimmed records. */
  function ExtractRows(rows: seq<Row>): seq<JobRecord> {
    if rows == [] then []
    else
      var last := rows[|rows| - 1];
      ExtractRows(rows[..|rows| - 1]) + (if |last| >= 4 then [RecordOf(last)] else [])
  }

  /** Records with an empty job name are dropped; the rest keep their order. */
  function KeepNamed(jobs: seq<JobRecord>): seq<JobRecord> {
    if jobs == [] then []
    else
      var last := jobs[|jobs| - 1];
      KeepNamed(jobs[..|jobs| - 1]) + (if last.job != "" then [last] else [])
  }

  /** The records handed to `groupJobs`. */
  function ScrapedJobs(rows: seq<Row>): seq<JobRecord> {
    KeepNamed(ExtractRows(rows))
  }

  /** A row that yields a record: at least four cells and a first cell that is not blank once trimmed. */
  predicate Usable(row: Row) {
    |row| >= 4 && Trim(row[0]) != ""
  }

  // ----------------------------------------------------------- page label

  /** An element's trimmed text, `""` when the element is missing. */
  function TitleText(el: Option<string>): (r: string)
    ensures el.None? ==> r == ""
    ensures el.Some? ==> r == Trim(el.value)
    ensures r == [] || (!IsWhitespace(r[0]) && !IsWhitespace(r[|r| - 1]))
  {
    if el.Some? && el.value != "" then Trim(el.value) else ""
  }

  /**
   * `zoneName`: the boss title when a boss was asked for and the page shows a
   * non-blank one, otherwise the zone title, otherwise `""`.
   */
  function PageLabel(bossGiven: bool, bossTitle: Option<string>, zoneTitle: Option<string>): (r: string)
    ensures bossGiven && TitleText(bossTitle) != "" ==> r == TitleText(bossTitle)
    ensures !bossGiven || TitleText(bossTitle) == "" ==> r == TitleText(zoneTitle)
    ensures r == "" <==> (!bossGiven || TitleText(bossTitle) == "") && TitleText(zoneTitle) == ""
  {
    var fromBoss := if bossGiven then TitleText(bossTitle) else "";
    if fromBoss != "" then fromBoss else TitleText(zoneTitle)
  }

  // ---------------------------------------------------------------- lemmas

  /** A zone text with trailing junk is accepted by its numeric prefix: "68x" is zone 68. */
  lemma ZonePrefixAccepted()
    ensures CheckZone(Some("68x")) == ValidZone(68)
  {
    assert NatText(68) == "68" by {
      assert NatText(6) == "6";
    }
    ParseIntText(68, "x");
    assert IntText(68) + "x" == "68x";
  }

  /** `parseInt` with no radix reads a `0x` prefix as base 16: "0x44" is zone 68. */
  lemma HexZoneAccepted()
    ensures CheckZone(Some("0x44")) == ValidZone(68)
  {
    var u := "0x44";
    assert TrimStart(u) == u;
    assert Unsigned(u) == u;
    assert HasHexPrefix(u);
    assert u[2..] == "44";
    assert DigitPrefix("44", 16) == "44";
    assert DigitsValue("44", 16) == 68 by {
      assert "44"[..1] == "4";
    }
  }

  /** The two supported zones, written plainly, are accepted. */
  lemma PlainZonesAccepted()
    ensures CheckZone(Some("68")) == ValidZone(68)
    ensures CheckZone(Some("65")) == ValidZone(65)
  {
    assert NatText(6) == "6";
    assert IntText(68) == "68" && IntText(65) == "65";
    ZoneTextRoundTrip(68);
    ZoneTextRoundTrip(65);
  }

  /** A zone text that opens with neither whitespace, a sign nor a digit is rejected as unsupported. */
  lemma NonNumericZoneRejected(zone: string)
    requires zone != [] && !IsWhitespace(zone[0]) && zone[0] != '-' && zone[0] != '+' && !IsDigitIn(zone[0], 10)
    ensures CheckZone(Some(zone)) == UnsupportedZone
  {
    ParseIntNoDigit(zone);
  }

  /** The integer text of a supported zone passes the check with its own value; any other integer is refused. */
  lemma ZoneTextRoundTrip(z: int)
    ensures CheckZone(Some(IntText(z))) == if z == 65 || z == 68 then ValidZone(z) else UnsupportedZone
  {
    ParseIntText(z, []);
    assert IntText(z) + [] == IntText(z);
  }

  lemma PrefixesDiffer()
    ensures |ZoneUrl(68)| == |ZoneUrl(65)|
    ensures ZoneUrl(65)[..|ZoneUrl(68)|] != ZoneUrl(68)
  {
    var i := |StatisticsBase| + 1;
    assert ZoneUrl(65)[i] == '5';
    assert ZoneUrl(68)[i] == '8';
  }

  /** The URL determines the zone (68, or 65 for the rest) and the boss text: `ReadTargetUrl` recovers both. */
  lemma TargetUrlRoundTrip(zoneId: int, boss: Option<string>)
    ensures ReadTargetUrl(TargetUrl(zoneId, boss)) == Some((if zoneId == 68 then 68 else 65, BossText(boss)))
  {
    var url := TargetUrl(zoneId, boss);
    var p := ZoneUrl(zoneId);
    var tail := if BossGiven(boss) then BossField + boss.value else "";
    assert url[..|p|] == p && url[|p|..] == tail;
    PrefixesDiffer();
    if zoneId != 68 {
      assert url[..|ZoneUrl(68)|] == ZoneUrl(65);
    }
    if BossGiven(boss) {
      assert tail[..|BossField|] == BossField;
      assert tail[|BossField|..] == boss.value;
    }
  }

  /** The URL depends on the zone only through its parsed id: two texts that parse alike give the same URL. */
  lemma TargetUrlFollowsParsedZone(a: string, b: string, boss: Option<string>)
    requires CheckZone(Some(a)).ValidZone? && CheckZone(Some(b)).ValidZone?
    requires ParseInt(a) == ParseInt(b)
    ensures TargetUrl(CheckZone(Some(a)).id, boss) == TargetUrl(CheckZone(Some(b)).id, boss)
  {
  }

  lemma {:induction false} ExtractRowsAppend(a: seq<Row>, b: seq<Row>)
    ensures ExtractRows(a + b) == ExtractRows(a) + ExtractRows(b)
    decreases |b|
  {
    if b == [] {
      assert a + b == a;
    } else {
      var init := b[..|b| - 1];
      assert (a + b)[..|a + b| - 1] == a + init;
      ExtractRowsAppend(a, init);
    }
  }

  lemma {:induction false} KeepNamedAppend(a: seq<JobRecord>, b: seq<JobRecord>)
    ensures KeepNamed(a + b) == KeepNamed(a) + KeepNamed(b)
    decreases |b|
  {
    if b == [] {
      assert a + b == a;
    } else {
      var init := b[..|b| - 1];
      assert (a + b)[..|a + b| - 1] == a + init;
      KeepNamedAppend(a, init);
    }
  }

  /** Records come out in row order: the rows of a concatenation give the concatenation of their records. */
  lemma ScrapedJobsAppend(a: seq<Row>, b: seq<Row>)
    ensures ScrapedJobs(a + b) == ScrapedJobs(a) + ScrapedJobs(b)
  {
    ExtractRowsAppend(a, b);
    KeepNamedAppend(ExtractRows(a), ExtractRows(b));
  }

  /** One row contributes its record exactly when it is usable. */
  lemma ScrapedJobsOne(row: Row)
    ensures ScrapedJobs([row]) == if Usable(row) then [RecordOf(row)] else []
  {
    assert [row][..0] == [];
    assert ExtractRows([row]) == if |row| >= 4 then [RecordOf(row)] else [];
    if |row| >= 4 {
      var r := RecordOf(row);
      assert [r][..0] == [];
      assert KeepNamed([r]) == KeepNamed([]) + (if r.job != "" then [r] else []);
    }
  }

  /** A malformed row (fewer than four cells) is skipped without changing what the other rows yield. */
  lemma ShortRowSkipped(before: seq<Row>, row: Row, after: seq<Row>)
    requires |row| < 4
    ensures ScrapedJobs(before + [row] + after) == ScrapedJobs(before + after)
  {
    ScrapedJobsAppend(before + [row], after);
    ScrapedJobsAppend(before, [row]);
    ScrapedJobsOne(row);
    ScrapedJobsAppend(before, after);
  }

  /** Row `i` of `rows` is usable and yields `x`. */
  predicate YieldsAt(rows: seq<Row>, i: int, x: JobRecord) {
    0 <= i < |rows| && Usable(rows[i]) && x == RecordOf(rows[i])
  }

  /** Every record handed to `groupJobs` comes from a usable row, and every usable row gives one. */
  lemma {:induction false} ScrapedJobsMembers(rows: seq<Row>, x: JobRecord)
    ensures x in ScrapedJobs(rows) <==> exists i :: YieldsAt(rows, i, x)
  {
    if rows != [] {
      var init, last := rows[..|rows| - 1], rows[|rows| - 1];
      var fromLast := ScrapedJobs([last]);
      assert x in ScrapedJobs(rows) <==> x in ScrapedJobs(init) || x in fromLast by {
        assert init + [last] == rows;
        ScrapedJobsAppend(init, [last]);
      }
      assert x in fromLast <==> YieldsAt(rows, |rows| - 1, x) by {
        ScrapedJobsOne(last);
      }
      assert (exists i :: YieldsAt(init, i, x)) <==> exists i :: i < |init| && YieldsAt(rows, i, x) by {
        forall i ensures YieldsAt(init, i, x) <==> i < |init| && YieldsAt(rows, i, x) {
          if 0 <= i < |init| {
            assert init[i] == rows[i];
          }
        }
      }
      ScrapedJobsMembers(init, x);
    }
  }
}
