/** Downsampling of device history (server/app/dashboard/read.py). */
module History {
  import opened Prelude

  const POINTS: nat := 240
  const SERIES: nat := 64

  // ----- which samples are kept -----

  /** The smallest integer that is at least a / b. */
  function Ceil(a: nat, b: nat): nat
    requires b > 0
  {
    (a + b - 1) / b
  }

  /** The sample that stands for bucket `b` of `n` samples. */
  function PointIndex(n: nat, b: nat): int {
    Ceil((b + 1) * n, POINTS) - 1
  }

  lemma NextCeil(x: nat, n: nat)
    requires n > POINTS
    ensures Ceil(x, POINTS) < Ceil(x + n, POINTS) <= Ceil(x, POINTS) + Ceil(n, POINTS)
  {
  }

  lemma NextPoint(n: nat, b: nat)
    requires n > POINTS
    ensures PointIndex(n, b) < PointIndex(n, b + 1) <= PointIndex(n, b) + Ceil(n, POINTS)
  {
    assert (b + 2) * n == (b + 1) * n + n;
    NextCeil((b + 1) * n, n);
  }

  lemma {:induction false} PointsIncrease(n: nat, b: nat, c: nat)
    requires n > POINTS && b < c
    ensures PointIndex(n, b) < PointIndex(n, c)
    decreases c
  {
    hide PointIndex;
    NextPoint(n, c - 1);
    if b < c - 1 {
      PointsIncrease(n, b, c - 1);
    }
  }

  lemma FirstAndLastPoint(n: nat)
    requires n > POINTS
    ensures PointIndex(n, 0) == Ceil(n, POINTS) - 1 && PointIndex(n, POINTS - 1) == n - 1
  {
  }

  lemma PointInRange(n: nat, b: nat)
    requires n > POINTS && b < POINTS
    ensures 0 <= PointIndex(n, b) < n
  {
    FirstAndLastPoint(n);
    if b > 0 {
      PointsIncrease(n, 0, b);
    }
    if b < POINTS - 1 {
      PointsIncrease(n, b, POINTS - 1);
    }
  }

  function Sampled<T>(samples: seq<T>): seq<T> {
    if |samples| <= POINTS then samples
    else
      seq(POINTS, b requires 0 <= b < POINTS => PointInRange(|samples|, b); samples[PointIndex(|samples|, b)])
  }

  /** The places of the kept samples among all of them. */
  function Places(n: nat): (r: seq<int>) {
    if n <= POINTS then seq(n, i requires 0 <= i < n => i) else seq(POINTS, b requires 0 <= b < POINTS => PointIndex(n, b))
  }

  lemma EndsItsBucket(n: nat, b: nat)
    ensures PointIndex(n, b) * POINTS < (b + 1) * n <= (PointIndex(n, b) + 1) * POINTS || n == 0
  {
    var x := (b + 1) * n;
    assert x == 0 <==> n == 0;
  }

  /**
   * At most 240 samples are kept, exactly 240 of any more; they are samples in their order, the newest among them,
   * and between two neighbours, or before the first, never more than ceil(n/240) - 1 are skipped. Of more samples, each
   * is the one in which its 240th of them ends.
   */
  lemma SampledIsSpread<T>(samples: seq<T>)
    ensures var (n, places) := (|samples|, Places(|samples|));
            && |Sampled(samples)| == |places| == Min(n, 240)
            && (forall i :: 0 <= i < |places| ==> 0 <= places[i] < n && Sampled(samples)[i] == samples[places[i]])
            && (forall i, j :: 0 <= i < j < |places| ==> places[i] < places[j])
            && (n > 0 ==> places[|places| - 1] == n - 1)
            && (forall i :: 0 <= i < |places| - 1 ==> places[i + 1] - places[i] <= Ceil(Max(n, 1), POINTS))
            && (n > 0 ==> places[0] <= Ceil(n, POINTS) - 1)
            && (n > 240 ==> forall b :: 0 <= b < 240 ==> places[b] * 240 < (b + 1) * n <= (places[b] + 1) * 240)
  {
    var n, places := |samples|, Places(|samples|);
    if n > POINTS {
      FirstAndLastPoint(n);
      forall i, j | 0 <= i < j < |places| ensures places[i] < places[j] {
        PointsIncrease(n, i, j);
      }
      forall i | 0 <= i < |places| ensures 0 <= places[i] < n && places[i] * 240 < (i + 1) * n <= (places[i] + 1) * 240 {
        PointInRange(n, i);
        EndsItsBucket(n, i);
      }
      forall i | 0 <= i < |places| - 1 ensures places[i + 1] - places[i] <= Ceil(n, POINTS) {
        NextPoint(n, i);
      }
    }
  }

  // ----- GPU series -----

  datatype Id = Uuid(uuid: string) | Index(index: nat)

  datatype Gpu = Gpu(uuid: Option<string>, index: Option<int>, utilization: Option<real>, temperature: Option<real>)

  datatype Sample = Sample(receivedAt: Option<Time>, cpu: Option<real>, memory: Option<real>, gpus: seq<Gpu>)

  datatype Observation = Observation(id: Id, at: Time, utilization: Option<real>, temperature: Option<real>)

  datatype Point = Point(at: Time, value: Option<real>)

  datatype Series = Series(utilization: seq<Point>, temperature: seq<Point>)

  datatype GpuSeries = GpuSeries(seriesId: string, identity: Id, points: Series)

  function IdOf(gpu: Gpu): Option<Id> {
    if gpu.uuid.Some? && gpu.uuid.value != "" then Some(Uuid(gpu.uuid.value))
    else if gpu.index.Some? && gpu.index.value >= 0 then Some(Index(gpu.index.value))
    else None
  }

  /** A GPU is identified by its UUID if it has one that is not empty, otherwise by its index if that is not negative. */
  lemma IdentifiedBy(gpu: Gpu, uuid: string, index: nat)
    ensures IdOf(gpu) == Some(Uuid(uuid)) <==> gpu.uuid == Some(uuid) && |uuid| > 0
    ensures IdOf(gpu) == Some(Index(index)) <==> gpu.uuid in {None, Some("")} && gpu.index == Some(index)
    ensures IdOf(gpu) == None <==> gpu.uuid in {None, Some("")} && (gpu.index == None || gpu.index.value < 0)
  {
  }

  function Digits(n: nat): (r: string)
    ensures |r| > 0
  {
    (if n < 10 then "" else Digits(n / 10)) + [(('0' as int) + n % 10) as char]
  }

  /** The name under which a series is collected and listed. */
  function SeriesId(id: Id): string {
    match id
    case Uuid(uuid) => "uuid:" + uuid
    case Index(index) => "index:" + Digits(index)
  }

  lemma SameEnds(a: string, x: char, b: string, y: char)
    requires a + [x] == b + [y]
    ensures a == b && x == y
  {
    assert (a + [x])[..|a|] == a && (b + [y])[..|b|] == b;
    assert (a + [x])[|a|] == x && (b + [y])[|b|] == y;
  }

  lemma {:induction false} DigitsDiffer(a: nat, b: nat)
    requires Digits(a) == Digits(b)
    ensures a == b
    decreases a
  {
    var front, other := if a < 10 then "" else Digits(a / 10), if b < 10 then "" else Digits(b / 10);
    var last, final := (('0' as int) + a % 10) as char, (('0' as int) + b % 10) as char;
    assert Digits(a) == front + [last] && Digits(b) == other + [final];
    hide Digits;
    SameEnds(front, last, other, final);
    assert last as int - '0' as int == a % 10 && final as int - '0' as int == b % 10;
    if a >= 10 && b >= 10 {
      DigitsDiffer(a / 10, b / 10);
    }
  }

  /** Names identify series: a UUID never collides with an index, whatever it contains. */
  lemma SeriesIdsDiffer(a: Id, b: Id)
    requires SeriesId(a) == SeriesId(b)
    ensures a == b
  {
    assert SeriesId(a)[0] == if a.Uuid? then 'u' else 'i';
    assert SeriesId(b)[0] == if b.Uuid? then 'u' else 'i';
    if a.Uuid? {
      assert SeriesId(a)[5..] == a.uuid && SeriesId(b)[5..] == b.uuid;
    } else {
      assert SeriesId(a)[6..] == Digits(a.index) && SeriesId(b)[6..] == Digits(b.index);
      DigitsDiffer(a.index, b.index);
    }
  }

  function ObservationOf(gpu: Gpu, at: Time): Observation
    requires IdOf(gpu).Some?
  {
    Observation(IdOf(gpu).value, at, gpu.utilization, gpu.temperature)
  }

  /** The observations of the identified GPUs of one sample. */
  function Observed(gpus: seq<Gpu>, at: Time): seq<Observation> {
    if gpus == [] then []
    else
      var gpu := gpus[|gpus| - 1];
      Observed(gpus[..|gpus| - 1], at)
      + if IdOf(gpu).Some? then [ObservationOf(gpu, at)] else []
  }

  function Observations(samples: seq<Sample>): seq<Observation> {
    if samples == [] then []
    else
      var sample := samples[|samples| - 1];
      Observations(samples[..|samples| - 1])
      + if sample.receivedAt.Some? then Observed(sample.gpus, sample.receivedAt.value) else []
  }

  function Metrics(samples: seq<Sample>, metric: Sample -> Option<real>): seq<Point> {
    if samples == [] then []
    else
      var sample := samples[|samples| - 1];
      Metrics(samples[..|samples| - 1], metric)
      + if sample.receivedAt.Some? then [Point(sample.receivedAt.value, metric(sample))] else []
  }

  function Ids(observations: seq<Observation>): set<Id> {
    set o | o in observations :: o.id
  }

  /** The points of one series, in the order of the observations. */
  function SeriesOf(observations: seq<Observation>, id: Id): Series {
    if observations == [] then Series([], [])
    else
      var last := observations[|observations| - 1];
      var front := SeriesOf(observations[..|observations| - 1], id);
      if last.id == id then
        Series(front.utilization + [Point(last.at, last.utilization)], front.temperature + [Point(last.at, last.temperature)])
      else front
  }

  /** `id` is observed after every observation of `other`. */
  ghost predicate SeenAfter(observations: seq<Observation>, id: Id, other: Id) {
    exists i :: 0 <= i < |observations| && observations[i].id == id
                && forall j :: 0 <= j < |observations| && observations[j].id == other ==> j < i
  }

  /** `kept` is the 64 most recently observed series, or all of them if there are no more. */
  ghost predicate MostRecent(kept: set<Id>, observations: seq<Observation>) {
    && kept <= Ids(observations) && |kept| == Min(64, |Ids(observations)|)
    && forall id, other :: id in kept && other in Ids(observations) && other !in kept ==> SeenAfter(observations, id, other)
  }

  lemma SubsetSize<T>(a: set<T>, b: set<T>)
    requires a <= b
    ensures |a| <= |b| && (|a| == |b| ==> a == b)
  {
    assert b == a + (b - a) && |b| == |a| + |b - a|;
  }

  lemma OneIsLater(observations: seq<Observation>, id: Id, other: Id)
    requires SeenAfter(observations, id, other)
    ensures !SeenAfter(observations, other, id)
  {
  }

  /** There is only one such set. */
  lemma MostRecentIsUnique(a: set<Id>, b: set<Id>, observations: seq<Observation>)
    requires MostRecent(a, observations) && MostRecent(b, observations)
    ensures a == b
  {
    hide SeenAfter;
    if a <= b {
      SubsetSize(a, b);
    } else if b <= a {
      SubsetSize(b, a);
    } else {
      var id :| id in a && id !in b;
      var other :| other in b && other !in a;
      OneIsLater(observations, id, other);
      assert false;
    }
  }

  // ----- the loops -----

  method Collect(samples: seq<Sample>) returns (cpu: seq<Point>, memory: seq<Point>, observations: seq<Observation>)
    ensures observations == Observations(samples)
    ensures cpu == Metrics(samples, (s: Sample) => s.cpu) && memory == Metrics(samples, (s: Sample) => s.memory)
  {
    ghost var cpuOf, memoryOf := (s: Sample) => s.cpu, (s: Sample) => s.memory;
    cpu, memory, observations := [], [], [];
    for i := 0 to |samples|
      invariant observations == Observations(samples[..i])
      invariant cpu == Metrics(samples[..i], cpuOf) && memory == Metrics(samples[..i], memoryOf)
    {
      assert samples[..i + 1][..i] == samples[..i];
      var sample := samples[i];
      if sample.receivedAt.Some? {
        var at := sample.receivedAt.value;
        cpu := cpu + [Point(at, sample.cpu)];
        memory := memory + [Point(at, sample.memory)];
        var before := observations;
        for k := 0 to |sample.gpus|
          invariant observations == before + Observed(sample.gpus[..k], at)
        {
          assert sample.gpus[..k + 1][..k] == sample.gpus[..k];
          var gpu := sample.gpus[k];
          if IdOf(gpu).Some? {
            observations := observations + [ObservationOf(gpu, at)];
          }
        }
        assert sample.gpus[..|sample.gpus|] == sample.gpus;
      }
    }
    assert samples[..|samples|] == samples;
  }

  lemma IdsPrepend(observations: seq<Observation>, k: nat)
    requires k < |observations|
    ensures Ids(observations[k..]) == {observations[k].id} + Ids(observations[k + 1..])
  {
    assert observations[k..] == [observations[k]] + observations[k + 1..];
  }

  function Members(ids: seq<Id>): set<Id> {
    set id | id in ids
  }

  lemma NoMembers()
    ensures Members([]) == {} && Ids([]) == {}
  {
  }

  lemma MemberAdded(ids: seq<Id>, id: Id)
    ensures id in ids <==> id in Members(ids)
    ensures Members(ids + [id]) == {id} + Members(ids)
    ensures id in ids ==> {id} + Members(ids) == Members(ids)
    ensures id !in ids ==> |Members(ids + [id])| == |Members(ids)| + 1
  {
    assert Members(ids + [id]) == Members(ids) + {id};
  }

  /** Reading the observations backwards until 64 series have been seen selects the most recent ones. */
  method SelectNewest(observations: seq<Observation>) returns (newest: seq<Id>)
    ensures MostRecent(Members(newest), observations)
    ensures forall i, j :: 0 <= i < j < |newest| ==> newest[i] != newest[j]
  {
    hide Members, Ids, MostRecent;
    NoMembers();
    newest := [];
    var k := |observations|;
    assert observations[k..] == [];
    while k > 0 && |newest| < SERIES
      invariant 0 <= k <= |observations|
      invariant Members(newest) == Ids(observations[k..])
      invariant |newest| == |Members(newest)| <= SERIES
      invariant forall i, j :: 0 <= i < j < |newest| ==> newest[i] != newest[j]
    {
      k := k - 1;
      var id := observations[k].id;
      IdsPrepend(observations, k);
      MemberAdded(newest, id);
      if id !in newest {
        newest := newest + [id];
      }
    }
    SuffixIsMostRecent(observations, k);
  }

  lemma InSuffix(observations: seq<Observation>, k: nat, j: nat)
    requires k <= j < |observations|
    ensures observations[j].id in Ids(observations[k..])
  {
    assert observations[k..][j - k] == observations[j];
  }

  lemma SuffixIsMostRecent(observations: seq<Observation>, k: nat)
    requires k <= |observations| && |Ids(observations[k..])| <= SERIES
    requires k > 0 ==> |Ids(observations[k..])| == SERIES
    ensures MostRecent(Ids(observations[k..]), observations)
  {
    var suffix := observations[k..];
    var kept, all := Ids(suffix), Ids(observations);
    assert forall o :: o in suffix ==> o in observations;
    SubsetSize(kept, all);
    assert k == 0 ==> suffix == observations;
    forall j | k <= j < |observations| ensures observations[j].id in kept {
      InSuffix(observations, k, j);
    }
    forall id, other | id in kept && other in all && other !in kept ensures SeenAfter(observations, id, other) {
      var i :| 0 <= i < |suffix| && suffix[i].id == id;
      assert observations[k + i].id == id;
      assert forall j :: 0 <= j < |observations| && observations[j].id == other ==> j < k + i;
    }
  }

  lemma IdsAppend(observations: seq<Observation>, i: nat)
    requires i < |observations|
    ensures Ids(observations[..i + 1]) == Ids(observations[..i]) + {observations[i].id}
  {
    assert observations[..i + 1] == observations[..i] + [observations[i]];
  }

  method GroupSeries(observations: seq<Observation>, selected: set<Id>) returns (series: map<Id, Series>)
    ensures series.Keys == selected * Ids(observations)
    ensures forall id :: id in series ==> series[id] == SeriesOf(observations, id)
  {
    series := map[];
    for i := 0 to |observations|
      invariant series.Keys == selected * Ids(observations[..i])
      invariant forall id :: id in series ==> series[id] == SeriesOf(observations[..i], id)
      invariant forall id :: id !in Ids(observations[..i]) ==> SeriesOf(observations[..i], id) == Series([], [])
    {
      var o := observations[i];
      IdsAppend(observations, i);
      assert observations[..i + 1][..i] == observations[..i];
      if o.id in selected {
        var item := if o.id in series then series[o.id] else Series([], []);
        series := series[o.id := Series(item.utilization + [Point(o.at, o.utilization)],
                                        item.temperature + [Point(o.at, o.temperature)])];
      }
    }
    assert observations[..|observations|] == observations;
  }

  // ----- the order of the series -----

  /** The order of strings by code point. */
  predicate Before(a: string, b: string) {
    b != [] && (a == [] || a[0] < b[0] || (a[0] == b[0] && Before(a[1..], b[1..])))
  }

  lemma {:induction false} BeforeIsTotal(a: string, b: string)
    ensures Before(a, b) || Before(b, a) || a == b
    ensures Before(a, b) ==> !Before(b, a) && a != b
  {
    if a != [] && b != [] && a[0] == b[0] {
      BeforeIsTotal(a[1..], b[1..]);
      assert a == [a[0]] + a[1..] && b == [b[0]] + b[1..];
    }
  }

  lemma {:induction false} BeforeIsTransitive(a: string, b: string, c: string)
    requires Before(a, b) && Before(b, c)
    ensures Before(a, c)
  {
    if a != [] && a[0] == b[0] == c[0] {
      BeforeIsTransitive(a[1..], b[1..], c[1..]);
    }
  }

  ghost predicate InOrder(ids: seq<Id>) {
    forall i, j :: 0 <= i < j < |ids| ==> Before(SeriesId(ids[i]), SeriesId(ids[j]))
  }

  function Insert(ids: seq<Id>, id: Id): seq<Id> {
    if ids == [] || Before(SeriesId(id), SeriesId(ids[0])) then [id] + ids else [ids[0]] + Insert(ids[1..], id)
  }

  /** The ids in the order of their names. */
  function Ordered(ids: seq<Id>): seq<Id> {
    if ids == [] then [] else Insert(Ordered(ids[..|ids| - 1]), ids[|ids| - 1])
  }

  lemma {:induction false} InsertKeepsOrder(ids: seq<Id>, id: Id)
    requires InOrder(ids) && id !in ids
    ensures InOrder(Insert(ids, id))
    ensures forall other :: other in Insert(ids, id) <==> other == id || other in ids
  {
    hide Before, SeriesId;
    if ids != [] {
      var head, rest := ids[0], ids[1..];
      assert ids == [head] + rest;
      if Before(SeriesId(id), SeriesId(head)) {
        forall j | 0 <= j < |ids| ensures Before(SeriesId(id), SeriesId(ids[j])) {
          if j > 0 {
            BeforeIsTransitive(SeriesId(id), SeriesId(head), SeriesId(ids[j]));
          }
        }
      } else {
        assert InOrder(rest);
        InsertKeepsOrder(rest, id);
        OtherwiseAfter(head, id);
        forall other | other in Insert(rest, id) ensures Before(SeriesId(head), SeriesId(other)) {
          assert other != id ==> exists j :: 0 < j < |ids| && ids[j] == other;
        }
      }
    }
  }

  lemma OtherwiseAfter(a: Id, b: Id)
    requires a != b && !Before(SeriesId(b), SeriesId(a))
    ensures Before(SeriesId(a), SeriesId(b))
  {
    BeforeIsTotal(SeriesId(a), SeriesId(b));
    if SeriesId(a) == SeriesId(b) {
      SeriesIdsDiffer(a, b);
    }
  }

  lemma {:induction false} OrderedIsInOrder(ids: seq<Id>)
    requires forall i, j :: 0 <= i < j < |ids| ==> ids[i] != ids[j]
    ensures InOrder(Ordered(ids))
    ensures forall id :: id in Ordered(ids) <==> id in ids
  {
    hide InOrder, Insert;
    if ids == [] {
      NothingInOrder();
    } else {
      var front, last := ids[..|ids| - 1], ids[|ids| - 1];
      assert ids == front + [last];
      OrderedIsInOrder(front);
      InsertKeepsOrder(Ordered(front), last);
    }
  }

  lemma NothingInOrder()
    ensures InOrder([])
  {
  }

  /** The identities of listed series. */
  function Listed(series: seq<GpuSeries>): set<Id> {
    set s | s in series :: s.identity
  }

  /** The series in the order of their names. */
  method ListSeries(series: map<Id, Series>, newest: seq<Id>) returns (list: seq<GpuSeries>)
    requires series.Keys == Members(newest)
    requires forall i, j :: 0 <= i < j < |newest| ==> newest[i] != newest[j]
    ensures Listed(list) == series.Keys
    ensures forall i, j :: 0 <= i < j < |list| ==> Before(list[i].seriesId, list[j].seriesId)
    ensures forall s :: s in list ==>
      s.seriesId == SeriesId(s.identity) && s.identity in series && s.points == series[s.identity]
  {
    hide Before, SeriesId, Ordered;
    OrderedIsInOrder(newest);
    var ids := Ordered(newest);
    list := [];
    for i := 0 to |ids|
      invariant |list| == i
      invariant forall k :: 0 <= k < i ==>
        ids[k] in series && list[k] == GpuSeries(SeriesId(ids[k]), ids[k], series[ids[k]])
    {
      assert ids[i] in newest;
      list := list + [GpuSeries(SeriesId(ids[i]), ids[i], series[ids[i]])];
    }
    forall id | id in series.Keys ensures id in Listed(list) {
      assert id in ids;
      var k :| 0 <= k < |ids| && ids[k] == id;
      assert list[k] in list && list[k].identity == id;
    }
  }

  /**
   * The projection of a history: one CPU and one memory point for each kept sample that has a time, and exactly the 64
   * most recently observed GPU series, in the order of their names, each with its identity and with all of its
   * observations in the kept samples, in order; it says that series are missing if and only if there were more than 64.
   */
  method Downsample(samples: seq<Sample>)
    returns (cpu: seq<Point>, memory: seq<Point>, list: seq<GpuSeries>, truncated: bool)
    ensures cpu == Metrics(Sampled(samples), (s: Sample) => s.cpu)
    ensures memory == Metrics(Sampled(samples), (s: Sample) => s.memory)
    ensures forall i, j :: 0 <= i < j < |list| ==> Before(list[i].seriesId, list[j].seriesId)
    ensures var observations := Observations(Sampled(samples));
            && MostRecent(Listed(list), observations)
            && (forall s :: s in list ==>
                  s.seriesId == SeriesId(s.identity) && s.points == SeriesOf(observations, s.identity))
            && (truncated <==> |Ids(observations)| > 64)
            && (truncated <==> Listed(list) != Ids(observations))
  {
    hide Before, SeriesId;
    var observations;
    cpu, memory, observations := Collect(Sampled(samples));
    var newest := SelectNewest(observations);
    var selected := Members(newest);
    var series := GroupSeries(observations, selected);
    assert series.Keys == selected;
    list := ListSeries(series, newest);
    truncated := |Ids(observations)| > SERIES;
    SubsetSize(series.Keys, Ids(observations));
  }

  // ----- what the points are of -----

  predicate Increasing(places: seq<nat>) {
    forall i, j :: 0 <= i < j < |places| ==> places[i] < places[j]
  }

  lemma OnePlaceMore(before: seq<nat>, n: nat)
    requires Increasing(before) && forall i :: i in before ==> i < n
    ensures Increasing(before + [n]) && forall i :: i in before + [n] <==> i in before || i == n
  {
    var places := before + [n];
    assert forall k :: 0 <= k < |before| ==> before[k] in before;
    assert places[|before|] == n;
  }

  /** `points` are those of the samples at `places`, which are all that have a time. */
  ghost predicate TakenAt(samples: seq<Sample>, metric: Sample -> Option<real>, points: seq<Point>, places: seq<nat>) {
    && Increasing(places) && |points| == |places|
    && (forall i :: i in places <==> 0 <= i < |samples| && samples[i].receivedAt.Some?)
    && (forall k :: 0 <= k < |places| ==>
          && places[k] < |samples| && samples[places[k]].receivedAt.Some?
          && points[k] == Point(samples[places[k]].receivedAt.value, metric(samples[places[k]])))
  }

  lemma OnePointMore(front: seq<Sample>, last: Sample, metric: Sample -> Option<real>, points: seq<Point>, places: seq<nat>)
    requires TakenAt(front, metric, points, places) && last.receivedAt.Some?
    ensures TakenAt(front + [last], metric, points + [Point(last.receivedAt.value, metric(last))], places + [|front|])
  {
    OnePlaceMore(places, |front|);
    hide Increasing;
  }

  lemma NoPointMore(front: seq<Sample>, last: Sample, metric: Sample -> Option<real>, points: seq<Point>, places: seq<nat>)
    requires TakenAt(front, metric, points, places) && last.receivedAt.None?
    ensures TakenAt(front + [last], metric, points, places)
  {
    hide Increasing;
  }

  /** Every sample that has a time gives exactly one point, in sample order. */
  lemma {:induction false} MetricsAreTheTimedSamples(samples: seq<Sample>, metric: Sample -> Option<real>)
    returns (places: seq<nat>)
    ensures TakenAt(samples, metric, Metrics(samples, metric), places)
  {
    if samples == [] {
      places := [];
    } else {
      var n := |samples| - 1;
      var front, last := samples[..n], samples[n];
      var before := MetricsAreTheTimedSamples(front, metric);
      hide TakenAt;
      assert samples == front + [last];
      if last.receivedAt.Some? {
        OnePointMore(front, last, metric, Metrics(front, metric), before);
        places := before + [n];
      } else {
        NoPointMore(front, last, metric, Metrics(front, metric), before);
        places := before;
      }
    }
  }

  /** `observations` are those of the GPUs at `places`, which are all that are identified. */
  ghost predicate SeenAt(gpus: seq<Gpu>, at: Time, observations: seq<Observation>, places: seq<nat>) {
    && Increasing(places) && |observations| == |places|
    && (forall g :: g in places <==> 0 <= g < |gpus| && IdOf(gpus[g]).Some?)
    && (forall k :: 0 <= k < |places| ==>
          places[k] < |gpus| && IdOf(gpus[places[k]]).Some? && observations[k] == ObservationOf(gpus[places[k]], at))
  }

  lemma OneSeenMore(front: seq<Gpu>, last: Gpu, at: Time, observations: seq<Observation>, places: seq<nat>)
    requires SeenAt(front, at, observations, places) && IdOf(last).Some?
    ensures SeenAt(front + [last], at, observations + [ObservationOf(last, at)], places + [|front|])
  {
    OnePlaceMore(places, |front|);
    hide Increasing, IdOf, ObservationOf;
  }

  lemma NoneSeenMore(front: seq<Gpu>, last: Gpu, at: Time, observations: seq<Observation>, places: seq<nat>)
    requires SeenAt(front, at, observations, places) && IdOf(last).None?
    ensures SeenAt(front + [last], at, observations, places)
  {
    hide Increasing, IdOf, ObservationOf;
  }

  /** Every identified GPU of a sample gives exactly one observation, in the order of the sample. */
  lemma {:induction false} ObservedAreTheIdentified(gpus: seq<Gpu>, at: Time) returns (places: seq<nat>)
    ensures SeenAt(gpus, at, Observed(gpus, at), places)
  {
    if gpus == [] {
      places := [];
    } else {
      var n := |gpus| - 1;
      var front, last := gpus[..n], gpus[n];
      var before := ObservedAreTheIdentified(front, at);
      hide SeenAt, IdOf, ObservationOf;
      assert gpus == front + [last];
      if IdOf(last).Some? {
        OneSeenMore(front, last, at, Observed(front, at), before);
        places := before + [n];
      } else {
        NoneSeenMore(front, last, at, Observed(front, at), before);
        places := before;
      }
    }
  }

  /** Where an observation comes from: a sample and a GPU in it. */
  datatype Origin = Origin(sample: nat, gpu: nat)

  /** An identified GPU of a sample that has a time. */
  predicate Observable(samples: seq<Sample>, o: Origin) {
    && o.sample < |samples| && samples[o.sample].receivedAt.Some?
    && o.gpu < |samples[o.sample].gpus| && IdOf(samples[o.sample].gpus[o.gpu]).Some?
  }

  predicate Earlier(a: Origin, b: Origin) {
    a.sample < b.sample || (a.sample == b.sample && a.gpu < b.gpu)
  }

  ghost predicate Originates(samples: seq<Sample>, observations: seq<Observation>, origins: seq<Origin>) {
    && |observations| == |origins|
    && (forall i, j :: 0 <= i < j < |origins| ==> Earlier(origins[i], origins[j]))
    && (forall o :: o in origins <==> Observable(samples, o))
    && (forall k :: 0 <= k < |origins| ==>
          && Observable(samples, origins[k])
          && var sample := samples[origins[k].sample];
             observations[k] == ObservationOf(sample.gpus[origins[k].gpu], sample.receivedAt.value))
  }

  /** Every identified GPU of every sample that has a time gives exactly one observation, in the order of the samples and
      of the GPUs within them. */
  lemma {:induction false} ObservationsAreTheIdentified(samples: seq<Sample>) returns (origins: seq<Origin>)
    ensures Originates(samples, Observations(samples), origins)
  {
    if samples == [] {
      origins := [];
    } else {
      var n := |samples| - 1;
      var front, last := samples[..n], samples[n];
      var before := ObservationsAreTheIdentified(front);
      assert samples == front + [last];
      if last.receivedAt.None? {
        origins := before;
        SameOrigins(front, last, Observations(front), before);
      } else {
        var places := ObservedAreTheIdentified(last.gpus, last.receivedAt.value);
        origins := before + seq(|places|, k requires 0 <= k < |places| => Origin(n, places[k]));
        MoreOrigins(front, last, Observations(front), before, Observed(last.gpus, last.receivedAt.value), places);
      }
    }
  }

  lemma ObservableInFront(front: seq<Sample>, last: Sample, o: Origin)
    ensures Observable(front + [last], o) <==>
            || Observable(front, o)
            || (o.sample == |front| && last.receivedAt.Some? && o.gpu < |last.gpus| && IdOf(last.gpus[o.gpu]).Some?)
  {
  }

  lemma SameOrigins(front: seq<Sample>, last: Sample, observations: seq<Observation>, origins: seq<Origin>)
    requires Originates(front, observations, origins) && last.receivedAt.None?
    ensures Originates(front + [last], observations, origins)
  {
    hide IdOf;
    forall o ensures Observable(front + [last], o) <==> Observable(front, o) {
      ObservableInFront(front, last, o);
    }
  }

  lemma MoreOrigins(front: seq<Sample>, last: Sample, observations: seq<Observation>, origins: seq<Origin>,
                    more: seq<Observation>, places: seq<nat>)
    requires Originates(front, observations, origins) && last.receivedAt.Some?
    requires SeenAt(last.gpus, last.receivedAt.value, more, places)
    ensures var added := seq(|places|, k requires 0 <= k < |places| => Origin(|front|, places[k]));
            Originates(front + [last], observations + more, origins + added)
  {
    hide IdOf;
    var n, samples := |front|, front + [last];
    var added := seq(|places|, k requires 0 <= k < |places| => Origin(n, places[k]));
    forall o ensures o in origins + added <==> Observable(samples, o) {
      ObservableInFront(front, last, o);
      if o in added {
        var k :| 0 <= k < |places| && added[k] == o;
        assert places[k] in places;
      }
      if o.sample == n && o.gpu in places {
        var k :| 0 <= k < |places| && places[k] == o.gpu;
        assert added[k] == o;
      }
    }
    forall i | 0 <= i < |origins| ensures origins[i].sample < n {
      assert Observable(front, origins[i]);
    }
  }

  // ----- what a series holds -----

  function Count(observations: seq<Observation>, id: Id): nat {
    if observations == [] then 0
    else Count(observations[..|observations| - 1], id) + if observations[|observations| - 1].id == id then 1 else 0
  }

  /** The observation at place `i` is the point of its series at the number of its earlier observations. */
  lemma {:induction false} EveryObservationHasItsPoint(observations: seq<Observation>, i: nat)
    requires i < |observations|
    ensures var o := observations[i];
            var (series, k) := (SeriesOf(observations, o.id), Count(observations[..i], o.id));
            && |series.utilization| == |series.temperature| == Count(observations, o.id) && k < Count(observations, o.id)
            && series.utilization[k] == Point(o.at, o.utilization) && series.temperature[k] == Point(o.at, o.temperature)
  {
    var n := |observations| - 1;
    var front, o := observations[..n], observations[i];
    SeriesLength(observations, o.id);
    if i < n {
      EveryObservationHasItsPoint(front, i);
      assert front[..i] == observations[..i];
      SeriesLength(front, o.id);
    } else {
      SeriesLength(front, o.id);
    }
  }

  lemma {:induction false} SeriesLength(observations: seq<Observation>, id: Id)
    ensures |SeriesOf(observations, id).utilization| == |SeriesOf(observations, id).temperature| == Count(observations, id)
  {
    if observations != [] {
      SeriesLength(observations[..|observations| - 1], id);
    }
  }
}
