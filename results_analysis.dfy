/**
  * The results analysis page: overall statistics, scores grouped by course
  * and by exam type, the dated trend, and the performance level label.
  *
  * The page groups scores by pushing them into a dictionary inside a
  * `forEach`; `BuildGroups` does that step by step and is proved equal to
  * the function `Group`, about which the grouping facts are proved.
  */
module ResultsAnalysis {
  import opened Wrappers
  import opened Seqs
  import opened MyResults
  import opened JsObject

  // ---------------------------------------------------------------------------
  // Overall statistics

  datatype Overall = Overall(average: real, highest: real, lowest: real, passRate: real, totalExams: nat)

  /** The overall block: nothing for no results, else mean, extremes and the percentage passed. */
  function OverallOf(data: seq<ExamResult>): (o: Option<Overall>)
    ensures o.None? <==> data == []
    ensures o.Some? ==>
      && o.value.totalExams == |data|
      && o.value.average == Sum(Scores(data)) / |data| as real
      && o.value.lowest <= o.value.average <= o.value.highest
      && 0.0 <= o.value.passRate <= 100.0
      && o.value.highest in Scores(data) && o.value.lowest in Scores(data)
      && o.value.passRate == PercentOf(Count(data, Passed), |data|)
    ensures o.Some? ==> forall i :: 0 <= i < |data| ==> o.value.lowest <= Score(data[i]) <= o.value.highest
  {
    if data == [] then None
    else
      var scores := Scores(data);
      var passed := Count(data, Passed);
      MeanBetweenMinAndMax(scores);
      Some(Overall(Sum(scores) / |data| as real, MaxOf(scores), MinOf(scores), PercentOf(passed, |data|), |data|))
  }

  // ---------------------------------------------------------------------------
  // Grouping

  /** `result.courseName || "Unknown"`. */
  function CourseKey(r: ExamResult): string {
    if r.courseName.Some? && r.courseName.value != "" then r.courseName.value else "Unknown"
  }

  /** `result.examType || "Other"`. */
  function TypeKey(r: ExamResult): string {
    if r.examType.Some? && r.examType.value != "" then r.examType.value else "Other"
  }

  /** The dictionary's keys in insertion order, and the scores pushed under each. */
  datatype Grouping = Grouping(keys: seq<string>, scores: map<string, seq<real>>)

  ghost predicate WellFormed(g: Grouping) {
    && (forall k :: k in g.scores <==> k in g.keys)
    && NoDuplicates(g.keys)
    && (forall k :: k in g.scores ==> |g.scores[k]| > 0)
  }

  /** The dictionary after pushing every result's score under its key, in order. */
  function Group(data: seq<ExamResult>, key: ExamResult -> string): (g: Grouping)
    ensures WellFormed(g)
  {
    if data == [] then Grouping([], map[])
    else File(Group(data[..|data| - 1], key), data[|data| - 1], key)
  }

  /** One step of the `forEach`: push the result's score under its key, creating the list if needed. */
  function File(g: Grouping, r: ExamResult, key: ExamResult -> string): Grouping {
    var k := key(r);
    if k in g.scores then Grouping(g.keys, g.scores[k := g.scores[k] + [Score(r)]])
    else Grouping(g.keys + [k], g.scores[k := [Score(r)]])
  }

  lemma GroupPrefixStep(data: seq<ExamResult>, i: nat, key: ExamResult -> string)
    requires i < |data|
    ensures Group(data[..i + 1], key) == File(Group(data[..i], key), data[i], key)
  {
    assert data[..i + 1][..i] == data[..i];
  }

  function KeyIs(key: ExamResult -> string, k: string): ExamResult -> bool {
    (r: ExamResult) => key(r) == k
  }

  /** The group of `k`, if any, holds exactly the scores of the results with that key, in input order. */
  ghost predicate HoldsScoresOfKey(data: seq<ExamResult>, key: ExamResult -> string, k: string) {
    var g := Group(data, key);
    && (k in g.scores ==> g.scores[k] == Scores(Filter(data, KeyIs(key, k))))
    && (k !in g.scores ==> Filter(data, KeyIs(key, k)) == [])
  }

  /** Filing a result under `k` extends `k`'s group by its score. */
  lemma GroupStepSameKey(init: seq<ExamResult>, r: ExamResult, key: ExamResult -> string, k: string)
    requires key(r) == k && HoldsScoresOfKey(init, key, k)
    ensures HoldsScoresOfKey(init + [r], key, k)
  {
    var data := init + [r];
    var p := KeyIs(key, k);
    assert data[..|data| - 1] == init;
    FilterAppend(init, [r], p);
    assert Filter(data, p) == Filter(init, p) + [r];
    MapAppend(Filter(init, p), [r], Score);
  }

  /** Filing a result under another key leaves `k`'s group alone. */
  lemma GroupStepOtherKey(init: seq<ExamResult>, r: ExamResult, key: ExamResult -> string, k: string)
    requires key(r) != k && HoldsScoresOfKey(init, key, k)
    ensures HoldsScoresOfKey(init + [r], key, k)
  {
    var data := init + [r];
    var p := KeyIs(key, k);
    assert data[..|data| - 1] == init;
    FilterAppend(init, [r], p);
    assert Filter(data, p) == Filter(init, p);
  }

  /** Each group holds exactly the scores of the results with that key, in input order. */
  lemma {:induction false} GroupHoldsScoresOfKey(data: seq<ExamResult>, key: ExamResult -> string, k: string)
    ensures var g := Group(data, key);
      && (k in g.scores ==> g.scores[k] == Scores(Filter(data, KeyIs(key, k))))
      && (k !in g.scores ==> Filter(data, KeyIs(key, k)) == [])
  {
    if data != [] {
      var init, r := data[..|data| - 1], data[|data| - 1];
      assert data == init + [r];
      GroupHoldsScoresOfKey(init, key, k);
      if key(r) == k {
        GroupStepSameKey(init, r, key, k);
      } else {
        GroupStepOtherKey(init, r, key, k);
      }
    }
  }

  /** The keys appear in the order their first result appears. */
  lemma {:induction false} GroupKeysInFirstSeenOrder(data: seq<ExamResult>, key: ExamResult -> string)
    ensures Group(data, key).keys == Distinct(Map(data, key))
  {
    if data != [] {
      var init, r := data[..|data| - 1], data[|data| - 1];
      assert data == init + [r];
      GroupKeysInFirstSeenOrder(init, key);
      MapAppend(init, [r], key);
      var m := Map(data, key);
      assert m[..|m| - 1] == Map(init, key);
    }
  }

  /** The number of scores filed under `keys`. */
  function TotalCount(keys: seq<string>, scores: map<string, seq<real>>): nat
    requires forall k :: k in keys ==> k in scores
  {
    if keys == [] then 0 else |scores[keys[0]]| + TotalCount(keys[1..], scores)
  }

  lemma {:induction false} TotalCountAppend(keys: seq<string>, k: string, scores: map<string, seq<real>>)
    requires forall x :: x in keys ==> x in scores
    requires k in scores
    ensures TotalCount(keys + [k], scores) == TotalCount(keys, scores) + |scores[k]|
  {
    if keys != [] {
      assert (keys + [k])[1..] == keys[1..] + [k];
      TotalCountAppend(keys[1..], k, scores);
    }
  }

  lemma {:induction false} TotalCountFrame(keys: seq<string>, m: map<string, seq<real>>, m': map<string, seq<real>>)
    requires forall x :: x in keys ==> x in m && x in m' && m'[x] == m[x]
    ensures TotalCount(keys, m') == TotalCount(keys, m)
  {
    if keys != [] {
      TotalCountFrame(keys[1..], m, m');
    }
  }

  lemma {:induction false} TotalCountUpdate(keys: seq<string>, m: map<string, seq<real>>, k: string, v: seq<real>)
    requires forall x :: x in keys ==> x in m
    requires NoDuplicates(keys) && k in keys
    ensures TotalCount(keys, m[k := v]) == TotalCount(keys, m) - |m[k]| + |v|
  {
    if keys[0] == k {
      assert forall j :: 0 <= j < |keys[1..]| ==> keys[1..][j] == keys[j + 1] != keys[0];
      TotalCountFrame(keys[1..], m, m[k := v]);
    } else {
      assert k in keys[1..];
      TotalCountUpdate(keys[1..], m, k, v);
    }
  }

  /** Every result is filed exactly once: the group sizes add up to the number of results. */
  lemma {:induction false} GroupCountsSumToTotal(data: seq<ExamResult>, key: ExamResult -> string)
    ensures TotalCount(Group(data, key).keys, Group(data, key).scores) == |data|
  {
    if data != [] {
      var init, r := data[..|data| - 1], data[|data| - 1];
      var prev := Group(init, key);
      GroupCountsSumToTotal(init, key);
      var k := key(r);
      if k in prev.scores {
        TotalCountUpdate(prev.keys, prev.scores, k, prev.scores[k] + [Score(r)]);
      } else {
        var m := prev.scores[k := [Score(r)]];
        TotalCountFrame(prev.keys, prev.scores, m);
        TotalCountAppend(prev.keys, k, m);
      }
    }
  }

  /** Creating the missing list and then pushing onto it is one `File` step. */
  lemma PushIsFile(keys: seq<string>, groups: map<string, seq<real>>, r: ExamResult, key: ExamResult -> string)
    ensures
      var name := key(r);
      var keys' := if name !in groups then keys + [name] else keys;
      var created := if name !in groups then groups[name := []] else groups;
      Grouping(keys', created[name := created[name] + [Score(r)]]) == File(Grouping(keys, groups), r, key)
  {
    assert [] + [Score(r)] == [Score(r)];
  }

  /**
    * The page's `forEach`: for each result, create the key's list when it is
    * missing, then push the score.
    */
  method BuildGroups(data: seq<ExamResult>, key: ExamResult -> string) returns (keys: seq<string>, groups: map<string, seq<real>>)
    ensures Grouping(keys, groups) == Group(data, key)
  {
    keys, groups := [], map[];
    var i := 0;
    while i < |data|
      invariant 0 <= i <= |data|
      invariant Grouping(keys, groups) == Group(data[..i], key)
    {
      var result := data[i];
      var name := key(result);
      GroupPrefixStep(data, i, key);
      PushIsFile(keys, groups, result, key);
      if name !in groups {
        keys := keys + [name];
        groups := groups[name := []];
      }
      groups := groups[name := groups[name] + [Score(result)]];
      i := i + 1;
    }
    assert data[..|data|] == data;
  }

  // ---------------------------------------------------------------------------
  // byCourse, byExamType

  datatype CourseSummary = CourseSummary(course: string, average: real, count: nat, highest: real, lowest: real)

  datatype TypeSummary = TypeSummary(examType: string, average: real, count: nat)

  /**
    * `c` sums up `scores`: their number, their mean, and the largest and
    * smallest of them (each one of the scores, and bounding all of them).
    */
  predicate Summarises(c: CourseSummary, scores: seq<real>) {
    && c.count == |scores| > 0
    && c.average == Sum(scores) / |scores| as real
    && c.highest in scores && c.lowest in scores
    && (forall j :: 0 <= j < |scores| ==> c.lowest <= scores[j] <= c.highest)
  }

  /** One course entry: mean, size and extremes of a non-empty score list. */
  function Summarize(course: string, scores: seq<real>): (c: CourseSummary)
    requires |scores| > 0
    ensures c.course == course && Summarises(c, scores)
    ensures c.lowest <= c.average <= c.highest
  {
    MeanBetweenMinAndMax(scores);
    CourseSummary(course, Sum(scores) / |scores| as real, |scores|, MaxOf(scores), MinOf(scores))
  }

  /** `Object.entries(courseMap).map(...)`: one entry per key, in key order. */
  function Summaries(keys: seq<string>, scores: map<string, seq<real>>): (cs: seq<CourseSummary>)
    requires forall k :: k in keys ==> k in scores && |scores[k]| > 0
    ensures |cs| == |keys|
    ensures forall i :: 0 <= i < |cs| ==> cs[i].course == keys[i] && Summarises(cs[i], scores[keys[i]])
    ensures forall i :: 0 <= i < |cs| ==> cs[i].lowest <= cs[i].average <= cs[i].highest
  {
    if keys == [] then [] else [Summarize(keys[0], scores[keys[0]])] + Summaries(keys[1..], scores)
  }

  function CountSum(cs: seq<CourseSummary>): int {
    if cs == [] then 0 else cs[0].count + CountSum(cs[1..])
  }

  lemma {:induction false} SummariesCount(keys: seq<string>, scores: map<string, seq<real>>)
    requires forall k :: k in keys ==> k in scores && |scores[k]| > 0
    ensures CountSum(Summaries(keys, scores)) == TotalCount(keys, scores)
  {
    if keys != [] {
      SummariesCount(keys[1..], scores);
    }
  }

  lemma {:induction false} CountSumAppend(a: seq<CourseSummary>, b: seq<CourseSummary>)
    ensures CountSum(a + b) == CountSum(a) + CountSum(b)
  {
    if a == [] {
      assert a + b == b;
    } else {
      assert (a + b)[0] == a[0] && (a + b)[1..] == a[1..] + b;
      CountSumAppend(a[1..], b);
    }
  }

  /** Taking one entry out of the middle lowers the total by its count. */
  lemma CountSumRemove(b: seq<CourseSummary>, j: nat)
    requires j < |b|
    ensures CountSum(b) == b[j].count + CountSum(b[..j] + b[j + 1..])
  {
    assert b[..j] + b[j..] == b;
    CountSumAppend(b[..j], b[j..]);
    assert b[j..][0] == b[j] && b[j..][1..] == b[j + 1..];
    CountSumAppend(b[..j], b[j + 1..]);
  }

  /** Removing the same element from two permutations of each other leaves permutations. */
  lemma RemoveFromPermutation<T>(a: seq<T>, b: seq<T>, j: nat)
    requires |a| > 0 && j < |b| && b[j] == a[0] && multiset(a) == multiset(b)
    ensures multiset(a[1..]) == multiset(b[..j] + b[j + 1..])
  {
    var x := a[0];
    assert b == b[..j] + [x] + b[j + 1..];
    assert a == [x] + a[1..];
    calc {
      multiset(a[1..]);
      multiset(a) - multiset{x};
      multiset(b) - multiset{x};
      multiset(b[..j]) + multiset(b[j + 1..]);
      multiset(b[..j] + b[j + 1..]);
    }
  }

  /** Reordering the entries does not change the total count. */
  lemma {:induction false} CountSumPermutation(a: seq<CourseSummary>, b: seq<CourseSummary>)
    requires multiset(a) == multiset(b)
    ensures CountSum(a) == CountSum(b)
    decreases |a|
  {
    if a != [] {
      assert a[0] in multiset(b);
      var j :| 0 <= j < |b| && b[j] == a[0];
      RemoveFromPermutation(a, b, j);
      CountSumPermutation(a[1..], b[..j] + b[j + 1..]);
      CountSumRemove(b, j);
    }
  }

  /** Every entry summarises at least one score, and its average lies between its extremes. */
  predicate Consistent(cs: seq<CourseSummary>) {
    forall i :: 0 <= i < |cs| ==> cs[i].count > 0 && cs[i].lowest <= cs[i].average <= cs[i].highest
  }

  lemma SummariesConsistent(keys: seq<string>, scores: map<string, seq<real>>)
    requires forall k :: k in keys ==> k in scores && |scores[k]| > 0
    ensures Consistent(Summaries(keys, scores))
  {
    var cs := Summaries(keys, scores);
    forall i | 0 <= i < |cs|
      ensures cs[i].count > 0
    {
      assert keys[i] in keys;
    }
  }

  lemma ConsistentPermutation(a: seq<CourseSummary>, b: seq<CourseSummary>)
    requires multiset(a) == multiset(b) && Consistent(b)
    ensures Consistent(a)
  {
    forall i | 0 <= i < |a|
      ensures a[i].count > 0 && a[i].lowest <= a[i].average <= a[i].highest
    {
      assert a[i] in multiset(b);
      var k :| 0 <= k < |b| && b[k] == a[i];
    }
  }

  function HighestAverageFirst(c: CourseSummary): real {
    -c.average
  }

  /**
    * `c` is the entry of its course: the number of results of that course,
    * and the mean, highest and lowest of exactly their scores.
    */
  predicate DescribesCourse(data: seq<ExamResult>, c: CourseSummary) {
    && c.count == Count(data, KeyIs(CourseKey, c.course))
    && Summarises(c, Scores(Filter(data, KeyIs(CourseKey, c.course))))
  }

  /** The entry of the `k`-th course key describes that course. */
  lemma CourseEntryDescribes(data: seq<ExamResult>, k: nat)
    requires k < |Group(data, CourseKey).keys|
    ensures DescribesCourse(data, Summaries(Group(data, CourseKey).keys, Group(data, CourseKey).scores)[k])
  {
    var g := Group(data, CourseKey);
    assert g.keys[k] in g.scores;
    GroupHoldsScoresOfKey(data, CourseKey, g.keys[k]);
  }

  /** Any reordering of the course entries has one entry per course, each describing its course. */
  lemma CourseEntriesDescribe(data: seq<ExamResult>, cs: seq<CourseSummary>)
    requires multiset(cs) == multiset(Summaries(Group(data, CourseKey).keys, Group(data, CourseKey).scores))
    ensures |cs| == |Distinct(Map(data, CourseKey))|
    ensures forall i :: 0 <= i < |cs| ==> DescribesCourse(data, cs[i])
  {
    var g := Group(data, CourseKey);
    var unsorted := Summaries(g.keys, g.scores);
    GroupKeysInFirstSeenOrder(data, CourseKey);
    assert |cs| == |multiset(cs)| == |unsorted|;
    forall i | 0 <= i < |cs|
      ensures DescribesCourse(data, cs[i])
    {
      assert cs[i] in multiset(unsorted);
      var k :| 0 <= k < |unsorted| && unsorted[k] == cs[i];
      CourseEntryDescribes(data, k);
    }
  }

  /** Any reordering of the course entries counts every result once. */
  lemma CourseEntriesCount(data: seq<ExamResult>, cs: seq<CourseSummary>)
    requires multiset(cs) == multiset(Summaries(Group(data, CourseKey).keys, Group(data, CourseKey).scores))
    ensures CountSum(cs) == |data|
  {
    var g := Group(data, CourseKey);
    GroupCountsSumToTotal(data, CourseKey);
    SummariesCount(g.keys, g.scores);
    CountSumPermutation(cs, Summaries(g.keys, g.scores));
  }

  /** In any reordering of the course entries each entry is non-empty, its average between its extremes. */
  lemma CourseEntriesConsistent(data: seq<ExamResult>, cs: seq<CourseSummary>)
    requires multiset(cs) == multiset(Summaries(Group(data, CourseKey).keys, Group(data, CourseKey).scores))
    ensures Consistent(cs)
  {
    var g := Group(data, CourseKey);
    SummariesConsistent(g.keys, g.scores);
    ConsistentPermutation(cs, Summaries(g.keys, g.scores));
  }

  /**
    * `byCourse`: one entry per course (missing names under "Unknown"),
    * ordered by average, highest first.
    */
  function ByCourse(data: seq<ExamResult>): (cs: seq<CourseSummary>)
    ensures |cs| == |Distinct(Map(data, CourseKey))|
    ensures forall i :: 0 <= i < |cs| ==> DescribesCourse(data, cs[i])
    ensures forall i, j :: 0 <= i < j < |cs| ==> cs[i].average >= cs[j].average
    ensures multiset(cs) == multiset(Summaries(Group(data, CourseKey).keys, Group(data, CourseKey).scores))
    ensures CountSum(cs) == |data|
    ensures forall i :: 0 <= i < |cs| ==> cs[i].count > 0 && cs[i].lowest <= cs[i].average <= cs[i].highest
  {
    var g := Group(data, CourseKey);
    var sorted := SortBy(Summaries(g.keys, g.scores), HighestAverageFirst);
    CourseEntriesDescribe(data, sorted);
    CourseEntriesCount(data, sorted);
    CourseEntriesConsistent(data, sorted);
    assert SortedBy(sorted, HighestAverageFirst);
    sorted
  }

  function TypeSummaries(keys: seq<string>, scores: map<string, seq<real>>): (ts: seq<TypeSummary>)
    requires forall k :: k in keys ==> k in scores && |scores[k]| > 0
    ensures |ts| == |keys|
    ensures forall i :: 0 <= i < |ts| ==>
      ts[i].examType == keys[i] && ts[i].count == |scores[keys[i]]|
      && ts[i].average == Sum(scores[keys[i]]) / |scores[keys[i]]| as real
      && MinOf(scores[keys[i]]) <= ts[i].average <= MaxOf(scores[keys[i]])
  {
    if keys == [] then []
    else
      var s := scores[keys[0]];
      MeanBetweenMinAndMax(s);
      [TypeSummary(keys[0], Sum(s) / |s| as real, |s|)] + TypeSummaries(keys[1..], scores)
  }

  /**
    * `t` is the entry of its exam type: the number of results of that type,
    * and the mean of their scores, which lies between the lowest and the
    * highest of them.
    */
  predicate DescribesType(data: seq<ExamResult>, t: TypeSummary) {
    var sc := Scores(Filter(data, KeyIs(TypeKey, t.examType)));
    && t.count == Count(data, KeyIs(TypeKey, t.examType))
    && |sc| > 0
    && t.average == Sum(sc) / |sc| as real
    && MinOf(sc) <= t.average <= MaxOf(sc)
  }

  /**
    * `byExamType`: one entry per exam type (missing types under "Other"), in
    * the order `Object.entries` lists the dictionary's keys.
    */
  function ByExamType(data: seq<ExamResult>): (ts: seq<TypeSummary>)
    ensures |ts| == |Distinct(Map(data, TypeKey))|
    ensures forall i :: 0 <= i < |ts| ==> ts[i].examType == EntriesOrder(Distinct(Map(data, TypeKey)))[i]
    ensures forall i :: 0 <= i < |ts| ==> DescribesType(data, ts[i])
  {
    var g := Group(data, TypeKey);
    GroupKeysInFirstSeenOrder(data, TypeKey);
    var keys := EntriesOrder(g.keys);
    EntriesSameKeys(g.keys);
    var ts := TypeSummaries(keys, g.scores);
    forall i | 0 <= i < |ts|
      ensures DescribesType(data, ts[i])
    {
      assert keys[i] in g.scores;
      GroupHoldsScoresOfKey(data, TypeKey, keys[i]);
    }
    ts
  }

  // ---------------------------------------------------------------------------
  // trend

  datatype TrendPoint = TrendPoint(date: int, score: real, exam: string)

  predicate HasDate(r: ExamResult) {
    r.examDate.Some?
  }

  function DateKey(r: ExamResult): real {
    if r.examDate.Some? then r.examDate.value as real else 0.0
  }

  /** One point of the trend: the date, `score || 0` and `examName || "Exam"`. */
  function PointOf(r: ExamResult): TrendPoint
    requires HasDate(r)
  {
    TrendPoint(r.examDate.value, Score(r), if r.examName.Some? && r.examName.value != "" then r.examName.value else "Exam")
  }

  function Points(rs: seq<ExamResult>): (t: seq<TrendPoint>)
    requires forall i :: 0 <= i < |rs| ==> HasDate(rs[i])
    ensures |t| == |rs| && forall i :: 0 <= i < |rs| ==> t[i] == PointOf(rs[i])
  {
    if rs == [] then [] else [PointOf(rs[0])] + Points(rs[1..])
  }

  /** `data.filter((r) => r.examDate).sort(...)`: the dated results, oldest first. */
  function DatedOldestFirst(data: seq<ExamResult>): (sorted: seq<ExamResult>)
    ensures multiset(sorted) == multiset(Filter(data, HasDate))
    ensures |sorted| == Count(data, HasDate)
    ensures forall i :: 0 <= i < |sorted| ==> HasDate(sorted[i]) && sorted[i] in data
    ensures forall i :: 0 <= i < |data| && HasDate(data[i]) ==> data[i] in sorted
    ensures forall i, j :: 0 <= i < j < |sorted| ==> sorted[i].examDate.value <= sorted[j].examDate.value
  {
    var dated := Filter(data, HasDate);
    var sorted := SortBy(dated, DateKey);
    forall i | 0 <= i < |sorted|
      ensures HasDate(sorted[i]) && sorted[i] in data
    {
      FilterMember(data, HasDate, sorted[i]);
    }
    assert forall i, j :: 0 <= i < j < |sorted| ==> DateKey(sorted[i]) <= DateKey(sorted[j]);
    sorted
  }

  lemma PointFromData(data: seq<ExamResult>, r: ExamResult)
    requires r in data && HasDate(r)
    ensures exists i :: 0 <= i < |data| && HasDate(data[i]) && PointOf(r) == PointOf(data[i])
  {
    var i :| 0 <= i < |data| && data[i] == r;
  }

  lemma PointInPoints(rs: seq<ExamResult>, r: ExamResult)
    requires forall i :: 0 <= i < |rs| ==> HasDate(rs[i])
    requires r in rs && HasDate(r)
    ensures PointOf(r) in Points(rs)
  {
    var j :| 0 <= j < |rs| && rs[j] == r;
    assert Points(rs)[j] == PointOf(r);
  }

  /** `trend`: one point per dated result, oldest first. */
  function Trend(data: seq<ExamResult>): (t: seq<TrendPoint>)
    ensures t == Points(DatedOldestFirst(data))
    ensures |t| == Count(data, HasDate)
    ensures forall i, j :: 0 <= i < j < |t| ==> t[i].date <= t[j].date
    ensures forall j :: 0 <= j < |t| ==> exists i :: 0 <= i < |data| && HasDate(data[i]) && t[j] == PointOf(data[i])
    ensures forall i :: 0 <= i < |data| && HasDate(data[i]) ==> PointOf(data[i]) in t
  {
    var sorted := DatedOldestFirst(data);
    var t := Points(sorted);
    forall j | 0 <= j < |t|
      ensures exists i :: 0 <= i < |data| && HasDate(data[i]) && t[j] == PointOf(data[i])
    {
      PointFromData(data, sorted[j]);
    }
    forall i | 0 <= i < |data| && HasDate(data[i])
      ensures PointOf(data[i]) in t
    {
      PointInPoints(sorted, data[i]);
    }
    t
  }

  // ---------------------------------------------------------------------------
  // The whole analysis, and getPerformanceLevel

  datatype Analysis = Analysis(
    overall: Option<Overall>,
    byCourse: seq<CourseSummary>,
    byExamType: seq<TypeSummary>,
    trend: seq<TrendPoint>)

  /** `analyzeResults`: no results leave every part empty; otherwise each part is the one defined above. */
  function AnalyzeResults(data: seq<ExamResult>): (a: Analysis)
    ensures data == [] <==> a.overall.None?
    ensures data == [] ==> a.byCourse == [] && a.byExamType == [] && a.trend == []
    ensures data != [] ==> a == Analysis(OverallOf(data), ByCourse(data), ByExamType(data), Trend(data))
    ensures data != [] ==> CountSum(a.byCourse) == |data|
  {
    if data == [] then Analysis(None, [], [], [])
    else Analysis(OverallOf(data), ByCourse(data), ByExamType(data), Trend(data))
  }

  /** The level's label and its colour (the badge variants of the results list). */
  datatype Level = Level(name: string, color: Variant)

  /** `getPerformanceLevel`: steps at 90, 75 and 60. */
  function PerformanceLevel(average: real): (l: Level)
    ensures l == Level("Excellent", Success) <==> average >= 90.0
    ensures l == Level("Good", Info) <==> 75.0 <= average < 90.0
    ensures l == Level("Average", Warning) <==> 60.0 <= average < 75.0
    ensures l == Level("Needs Improvement", Error) <==> average < 60.0
  {
    if average >= 90.0 then Level("Excellent", Success)
    else if average >= 75.0 then Level("Good", Info)
    else if average >= 60.0 then Level("Average", Warning)
    else Level("Needs Improvement", Error)
  }
}
