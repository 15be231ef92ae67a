/**
 * The role classifier shared, line for line, by both request handlers:
 * the `GROUPS` table and `groupJobs`, which buckets scraped job records into
 * the five role groups.
 */
module Roles {
  import opened Wrappers
  import opened JsStrings

  /** One statistics row: the job's display name, its score text and its sample-count text. */
  datatype JobRecord = JobRecord(job: string, score: string, count: string)

  /** A role group and the lower-case job names it collects. */
  datatype Group = Group(name: string, members: seq<string>)

  /** `GROUPS`, in declaration order, which is the order `Object.entries` visits it. */
  const GroupTable: seq<Group> := [
    Group("melee", ["viper", "monk", "dragoon", "samurai", "ninja"]),
    Group("caster", ["red mage", "black mage", "pictomancer", "summoner"]),
    Group("ranged", ["dancer", "machinist", "bard"]),
    Group("tank", ["warrior", "gunbreaker", "dark knight", "paladin"]),
    Group("healer", ["astrologian", "scholar", "white mage", "sage"])
  ]

  /** The keys of the object `groupJobs` returns, in insertion order. */
  const GroupOrder: seq<string> := ["melee", "caster", "ranged", "tank", "healer"]

  const GroupNames: set<string> := {"melee", "caster", "ranged", "tank", "healer"}

  /** The key order and the key set are the table's group names, in table order. */
  lemma GroupKeysAgree()
    ensures |GroupOrder| == |GroupTable|
    ensures forall i :: 0 <= i < |GroupTable| ==> GroupOrder[i] == GroupTable[i].name
    ensures forall g :: g in GroupNames <==> g in GroupOrder
  {
  }

  /** What a job name is looked up by: the name trimmed and lower-cased. */
  function NameKey(job: string): string {
    Lower(Trim(job))
  }

  /** The first group at or after position `k` of the table whose list holds `key`. */
  function FirstGroupFrom(key: string, k: nat): (r: Option<string>)
    requires k <= |GroupTable|
    ensures r.Some? ==> r.value in GroupNames
    decreases |GroupTable| - k
  {
    if k == |GroupTable| then None
    else if key in GroupTable[k].members then Some(GroupTable[k].name)
    else FirstGroupFrom(key, k + 1)
  }

  /** The group a job is pushed to, `None` when no list names it; a group is always one of the five keys. */
  function GroupOf(job: string): (r: Option<string>)
    ensures r.Some? ==> r.value in GroupNames
  {
    FirstGroupFrom(NameKey(job), 0)
  }

  predicate InGroup(x: JobRecord, g: string) {
    GroupOf(x.job) == Some(g)
  }

  /** The records of `jobs` that group `g` receives, in input order. */
  function Bucket(jobs: seq<JobRecord>, g: string): seq<JobRecord> {
    if jobs == [] then []
    else
      var last := jobs[|jobs| - 1];
      Bucket(jobs[..|jobs| - 1], g) + (if InGroup(last, g) then [last] else [])
  }

  /** The records of `jobs` that some group receives, in input order. */
  function Recognised(jobs: seq<JobRecord>): seq<JobRecord> {
    if jobs == [] then []
    else
      var last := jobs[|jobs| - 1];
      Recognised(jobs[..|jobs| - 1]) + (if GroupOf(last.job).Some? then [last] else [])
  }

  /**
   * The grouping of `jobs`: every one of the five keys is present, and each group
   * holds the input records classified into it, in input order.
   */
  function GroupJobs(jobs: seq<JobRecord>): (r: map<string, seq<JobRecord>>)
    ensures r.Keys == GroupNames
  {
    map g | g in GroupNames :: Bucket(jobs, g)
  }

  /**
   * `groupJobs` as the source runs it: for each record, scan the groups in
   * order, push the record onto the first whose list holds its key, and break.
   */
  method GroupJobsByScan(jobs: seq<JobRecord>) returns (result: map<string, seq<JobRecord>>)
    ensures result == GroupJobs(jobs)
  {
    result := map["melee" := [], "caster" := [], "ranged" := [], "tank" := [], "healer" := []];
    assert result == GroupJobs(jobs[..0]);
    for i := 0 to |jobs|
      invariant result == GroupJobs(jobs[..i])
    {
      var job := jobs[i];
      var jobName := NameKey(job.job);
      assert jobs[..i + 1] == jobs[..i] + [job];
      GroupJobsSnoc(jobs[..i], job);
      for k := 0 to |GroupTable|
        invariant result == GroupJobs(jobs[..i])
        invariant FirstGroupFrom(jobName, k) == GroupOf(job.job)
      {
        if jobName in GroupTable[k].members {
          result := result[GroupTable[k].name := result[GroupTable[k].name] + [job]];
          break;
        }
      }
    }
    assert jobs[..|jobs|] == jobs;
  }

  // ---------------------------------------------------------------- lemmas

  lemma BucketSnoc(jobs: seq<JobRecord>, x: JobRecord, g: string)
    ensures Bucket(jobs + [x], g) == Bucket(jobs, g) + (if InGroup(x, g) then [x] else [])
  {
    var s := jobs + [x];
    assert s[..|s| - 1] == jobs && s[|s| - 1] == x;
  }

  /** Each group holds exactly the input records classified into it, unchanged. */
  lemma GroupJobsMembers(jobs: seq<JobRecord>, g: string, x: JobRecord)
    requires g in GroupJobs(jobs)
    ensures x in GroupJobs(jobs)[g] <==> x in jobs && InGroup(x, g)
  {
    BucketMembers(jobs, g, x);
  }

  /** Appending one record changes at most the group it is classified into, by pushing it at the end. */
  lemma GroupJobsSnoc(jobs: seq<JobRecord>, x: JobRecord)
    ensures GroupOf(x.job).None? ==> GroupJobs(jobs + [x]) == GroupJobs(jobs)
    ensures GroupOf(x.job).Some? ==>
      var g := GroupOf(x.job).value;
      g in GroupJobs(jobs) && GroupJobs(jobs + [x]) == GroupJobs(jobs)[g := GroupJobs(jobs)[g] + [x]]
  {
    if GroupOf(x.job).Some? {
      GroupJobsSnocSome(jobs, x, GroupOf(x.job).value);
    } else {
      GroupJobsSnocNone(jobs, x);
    }
  }

  lemma GroupJobsSnocSome(jobs: seq<JobRecord>, x: JobRecord, g: string)
    requires GroupOf(x.job) == Some(g) && g in GroupNames
    ensures GroupJobs(jobs + [x]) == GroupJobs(jobs)[g := GroupJobs(jobs)[g] + [x]]
  {
    var before, after := GroupJobs(jobs), GroupJobs(jobs + [x]);
    var m := before[g := before[g] + [x]];
    forall h | h in GroupNames
      ensures after[h] == m[h]
    {
      GroupJobsSnocAt(jobs, x, g, h);
    }
  }

  /** The per-key step of `GroupJobsSnocSome`. */
  lemma GroupJobsSnocAt(jobs: seq<JobRecord>, x: JobRecord, g: string, h: string)
    requires GroupOf(x.job) == Some(g) && g in GroupNames && h in GroupNames
    ensures GroupJobs(jobs + [x])[h] == if h == g then GroupJobs(jobs)[h] + [x] else GroupJobs(jobs)[h]
  {
    BucketSnocAt(jobs, x, g, h);
  }

  lemma BucketSnocAt(jobs: seq<JobRecord>, x: JobRecord, g: string, h: string)
    requires GroupOf(x.job) == Some(g)
    ensures Bucket(jobs + [x], h) == if h == g then Bucket(jobs, h) + [x] else Bucket(jobs, h)
  {
    BucketSnoc(jobs, x, h);
  }

  lemma GroupJobsSnocNone(jobs: seq<JobRecord>, x: JobRecord)
    requires GroupOf(x.job).None?
    ensures GroupJobs(jobs + [x]) == GroupJobs(jobs)
  {
    var before, after := GroupJobs(jobs), GroupJobs(jobs + [x]);
    forall h | h in GroupNames
      ensures after[h] == before[h]
    {
      BucketSnoc(jobs, x, h);
    }
  }

  /** The five name lists share no name. */
  lemma TableDisjoint()
    ensures forall i, j, n :: 0 <= i < j < |GroupTable| && n in GroupTable[i].members ==> n !in GroupTable[j].members
  {
    forall i, j, n | 0 <= i < j < |GroupTable| && n in GroupTable[i].members
      ensures n !in GroupTable[j].members
    {
      ListDisjointFrom(i, n);
    }
  }

  /** A name in list `i` is in no later list. */
  lemma ListDisjointFrom(i: nat, n: string)
    requires i < |GroupTable| && n in GroupTable[i].members
    ensures forall j :: i < j < |GroupTable| ==> n !in GroupTable[j].members
  {
    if i == 0 {
      assert n in ["viper", "monk", "dragoon", "samurai", "ninja"];
    } else if i == 1 {
      assert n in ["red mage", "black mage", "pictomancer", "summoner"];
    } else if i == 2 {
      assert n in ["dancer", "machinist", "bard"];
    }
  }

  lemma {:induction false} FirstGroupFromMember(key: string, k: nat, j: nat)
    requires k <= j < |GroupTable|
    requires key in GroupTable[j].members
    ensures FirstGroupFrom(key, k) == Some(GroupTable[j].name)
    decreases j - k
  {
    TableDisjoint();
    if k < j {
      assert key !in GroupTable[k].members;
      FirstGroupFromMember(key, k + 1, j);
    }
  }

  lemma {:induction false} FirstGroupFromNone(key: string, k: nat)
    requires k <= |GroupTable|
    requires forall j :: k <= j < |GroupTable| ==> key !in GroupTable[j].members
    ensures FirstGroupFrom(key, k) == None
    decreases |GroupTable| - k
  {
    if k < |GroupTable| {
      FirstGroupFromNone(key, k + 1);
    }
  }

  /** The five group names are distinct. */
  lemma NamesDistinct()
    ensures forall i, j :: 0 <= i < j < |GroupTable| ==> GroupTable[i].name != GroupTable[j].name
  {
  }

  /** The first list holding `key` is the only one holding it. */
  lemma FirstGroupExactly(key: string)
    ensures forall j :: 0 <= j < |GroupTable| ==>
      (FirstGroupFrom(key, 0) == Some(GroupTable[j].name) <==> key in GroupTable[j].members)
    ensures FirstGroupFrom(key, 0) == None <==> forall j :: 0 <= j < |GroupTable| ==> key !in GroupTable[j].members
  {
    if exists j :: 0 <= j < |GroupTable| && key in GroupTable[j].members {
      var j :| 0 <= j < |GroupTable| && key in GroupTable[j].members;
      FirstGroupFromMember(key, 0, j);
      NamesDistinct();
      TableDisjoint();
      forall i | 0 <= i < |GroupTable|
        ensures FirstGroupFrom(key, 0) == Some(GroupTable[i].name) <==> key in GroupTable[i].members
      {
        if i < j {
          assert GroupTable[i].name != GroupTable[j].name && key !in GroupTable[i].members;
        } else if j < i {
          assert GroupTable[j].name != GroupTable[i].name && key !in GroupTable[i].members;
        }
      }
    } else {
      FirstGroupFromNone(key, 0);
    }
  }

  /**
   * Because the lists are disjoint, taking the first match is the same as taking
   * the one list that holds the key: a job lands in a group exactly when that
   * group's list names it, and in no group when no list does.
   */
  lemma GroupOfExactly(job: string)
    ensures forall j :: 0 <= j < |GroupTable| ==>
      (GroupOf(job) == Some(GroupTable[j].name) <==> NameKey(job) in GroupTable[j].members)
    ensures GroupOf(job) == None <==> forall j :: 0 <= j < |GroupTable| ==> NameKey(job) !in GroupTable[j].members
  {
    FirstGroupExactly(NameKey(job));
  }

  /** Classification ignores letter case and surrounding whitespace. */
  lemma GroupOfIgnoresCaseAndSpace(s: string, t: string, left: string, right: string)
    requires SameIgnoringCase(s, t)
    requires AllWhitespace(left) && AllWhitespace(right)
    ensures GroupOf(left + t + right) == GroupOf(s)
  {
    TrimPadded(left, t, right);
    TrimLowerIgnoresCase(s, t);
  }

  lemma {:induction false} BucketMembers(jobs: seq<JobRecord>, g: string, x: JobRecord)
    ensures x in Bucket(jobs, g) <==> x in jobs && InGroup(x, g)
  {
    if jobs != [] {
      var init := jobs[..|jobs| - 1];
      assert jobs == init + [jobs[|jobs| - 1]];
      BucketMembers(init, g, x);
    }
  }

  /** Group contents keep input order: the bucket of a concatenation is the concatenation of the buckets. */
  lemma {:induction false} BucketAppend(a: seq<JobRecord>, b: seq<JobRecord>, g: string)
    ensures Bucket(a + b, g) == Bucket(a, g) + Bucket(b, g)
    decreases |b|
  {
    if b == [] {
      assert a + b == a;
    } else {
      var init := b[..|b| - 1];
      assert (a + b)[..|a + b| - 1] == a + init;
      BucketAppend(a, init, g);
    }
  }

  /** Nothing is merged or deduplicated: each record occurs in its group as often as in the input. */
  lemma {:induction false} BucketCounts(jobs: seq<JobRecord>, g: string, x: JobRecord)
    ensures multiset(Bucket(jobs, g))[x] == if InGroup(x, g) then multiset(jobs)[x] else 0
  {
    if jobs != [] {
      var init := jobs[..|jobs| - 1];
      assert jobs == init + [jobs[|jobs| - 1]];
      BucketCounts(init, g, x);
    }
  }

  /** The five groups together hold exactly as many records as the input has recognised ones. */
  lemma {:induction false} GroupSizes(jobs: seq<JobRecord>)
    ensures var r := GroupJobs(jobs);
      |r["melee"]| + |r["caster"]| + |r["ranged"]| + |r["tank"]| + |r["healer"]| == |Recognised(jobs)|
  {
    if jobs != [] {
      var init := jobs[..|jobs| - 1];
      var x := jobs[|jobs| - 1];
      GroupSizes(init);
    }
  }

  /** A sample name is classified whatever its case and surrounding whitespace. */
  lemma ClassifiesPaddedDragoon(left: string, right: string)
    requires AllWhitespace(left) && AllWhitespace(right)
    ensures GroupOf(left + "Dragoon" + right) == Some("melee")
  {
    DragoonKey();
    GroupOfIgnoresCaseAndSpace("dragoon", "Dragoon", left, right);
    ClassifiesDragoon();
  }

  lemma DragoonKey()
    ensures SameIgnoringCase("dragoon", "Dragoon")
  {
    assert Lower("Dragoon") == "dragoon" == Lower("dragoon");
  }

  lemma ClassifiesDragoon()
    ensures GroupOf("dragoon") == Some("melee")
  {
    assert Trim("dragoon") == "dragoon";
    assert Lower("dragoon") == "dragoon";
    assert "dragoon" in GroupTable[0].members;
  }

  lemma ClassifiesUpperSage()
    ensures GroupOf("SAGE") == Some("healer")
  {
    assert Trim("SAGE") == "SAGE";
    assert Lower("SAGE") == "sage";
    assert NameKey("SAGE") == "sage";
    GroupOfExactly("SAGE");
    assert "sage" in GroupTable[4].members;
  }

  /** A melee record followed by a healer record: each lands in its group, the other three stay empty. */
  lemma MeleeThenHealer(a: JobRecord, b: JobRecord)
    requires GroupOf(a.job) == Some("melee") && GroupOf(b.job) == Some("healer")
    ensures var r := GroupJobs([a, b]);
      && r["melee"] == [a] && r["healer"] == [b]
      && r["caster"] == [] && r["ranged"] == [] && r["tank"] == []
  {
    assert [a, b][..1] == [a];
    assert [a][..0] == [];
    var r := GroupJobs([a, b]);
    forall g | g in GroupNames
      ensures r[g] == Bucket([a, b], g)
      ensures Bucket([a, b], g) == (if g == "melee" then [a] else []) + (if g == "healer" then [b] else [])
    {
      assert InGroup(a, g) <==> g == "melee";
      assert InGroup(b, g) <==> g == "healer";
      assert Bucket([a], g) == Bucket([], g) + (if InGroup(a, g) then [a] else []);
      assert Bucket([a, b], g) == Bucket([a], g) + (if InGroup(b, g) then [b] else []);
    }
  }

  /** `reaper` has a display colour on the dashboard but no group, so Reaper rows are dropped. */
  lemma ReaperIsDropped()
    ensures GroupOf("Reaper") == None
  {
    assert NameKey("Reaper") == "reaper";
    GroupOfExactly("Reaper");
  }
}
