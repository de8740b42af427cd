/**
 A collection interleaved with writers: src/aether/index/gc.py against the put and publish
 steps of src/aether/stream/partition.py and src/aether/index/compactor.py. Every request of
 the collector is a step of its own; looking at one key and deleting it is one step.
 */
module CollectorSafety {
  import opened Prelude
  import opened Collector
  import Keys

  /** Where a collection is. `moment` is the clock it read before anything else. */
  datatype Phase =
    | Idle
    | Began(moment: real)
    | Reading(moment: real, manifests: set<string>, unread: set<string>, live: set<string>)
    | Scanning(moment: real, protected: set<string>, todo: set<string>)

  /** `pending` holds the keys that a writer has put and not yet published, with the time of the put. */
  datatype Cluster = Cluster(objects: map<string, Entry>, now: real, pending: map<string, real>, phase: Phase)

  datatype Config = Config(prefix: string, graceSeconds: real)

  datatype Step =
    | Tick(seconds: real)
    | Put(key: string, bytes: nat)
    | Publish(manifest: string, adds: set<string>, drops: set<string>)
    | Abandon(key: string)
    | Begin
    | FindManifests
    | ReadManifest(key: string)
    | ListKeys
    | Inspect(key: string)
    | Stop

  function NamesIn(objects: map<string, Entry>, manifest: string): set<string> {
    if manifest in objects && objects[manifest].item.ManifestObject? then objects[manifest].item.names else {}
  }

  predicate IsManifestKey(c: Config, key: string) {
    StartsWith(key, c.prefix) && IsManifestName(key)
  }

  /** A writer's put is published in time: less than the grace period after it. */
  predicate InTime(c: Config, s: Cluster, key: string) {
    key in s.pending && s.now - s.pending[key] < c.graceSeconds
  }

  predicate Enabled(c: Config, s: Cluster, step: Step) {
    match step
    case Tick(seconds) => seconds >= 0.0
    case Put(key, _) => !IsManifestName(key)
    case Publish(manifest, adds, _) => IsManifestKey(c, manifest) && forall k :: k in adds ==> InTime(c, s, k)
    case Abandon(key) => key in s.pending
    case Begin => s.phase.Idle?
    case FindManifests => s.phase.Began?
    case ReadManifest(key) => s.phase.Reading? && key in s.phase.unread
    case ListKeys => s.phase.Reading? && s.phase.unread == {}
    case Inspect(key) => s.phase.Scanning? && key in s.phase.todo
    case Stop => !s.phase.Idle?
  }

  /** The collector would delete this object now. */
  predicate Deletable(c: Config, s: Cluster, key: string)
    requires s.phase.Scanning?
  {
    key in s.objects && key !in s.phase.protected && OldEnough(s.phase.moment, c.graceSeconds, s.objects[key])
  }

  function Apply(c: Config, s: Cluster, step: Step): Cluster
    requires Enabled(c, s, step)
  {
    match step
    case Tick(seconds) => s.(now := s.now + seconds)
    case Put(key, bytes) =>
      s.(objects := s.objects[key := Entry(SegmentObject, bytes, s.now)], pending := s.pending[key := s.now])
    case Publish(manifest, adds, drops) =>
      var names := (NamesIn(s.objects, manifest) - drops) + adds;
      s.(objects := s.objects[manifest := Entry(ManifestObject(names), 0, s.now)], pending := s.pending - adds)
    case Abandon(key) => s.(pending := s.pending - {key})
    case Begin => s.(phase := Began(s.now))
    case FindManifests =>
      var found := set k | k in s.objects && IsManifestKey(c, k);
      s.(phase := Reading(s.phase.moment, found, found, {}))
    case ReadManifest(key) =>
      s.(phase := s.phase.(unread := s.phase.unread - {key}, live := s.phase.live + NamesIn(s.objects, key)))
    case ListKeys =>
      s.(phase := Scanning(s.phase.moment, s.phase.live + s.phase.manifests,
                           set k | k in s.objects && StartsWith(k, c.prefix)))
    case Inspect(key) =>
      s.(objects := if Deletable(c, s, key) then s.objects - {key} else s.objects,
         phase := s.phase.(todo := s.phase.todo - {key}))
    case Stop => s.(phase := Idle)
  }

  predicate Init(s: Cluster) {
    s.objects == map[] && s.pending == map[] && s.phase.Idle?
  }

  ghost predicate Next(c: Config, s: Cluster, s': Cluster) {
    exists step :: Enabled(c, s, step) && s' == Apply(c, s, step)
  }

  ghost predicate IsRun(c: Config, run: seq<Cluster>) {
    && run != [] && Init(run[0])
    && forall i :: 0 <= i < |run| - 1 ==> Next(c, run[i], run[i + 1])
  }

  // ---- the invariant ---------------------------------------------------

  /** Written too late for a collection that began at `moment` to delete. */
  predicate Recent(c: Config, objects: map<string, Entry>, moment: real, key: string) {
    key in objects && !OldEnough(moment, c.graceSeconds, objects[key])
  }

  ghost predicate WellKept(c: Config, s: Cluster) {
    forall k :: k in s.objects ==>
      s.objects[k].modifiedAt <= s.now && (s.objects[k].item.ManifestObject? <==> IsManifestKey(c, k))
  }

  /** No manifest names an object that is not there. */
  ghost predicate NothingMissing(s: Cluster) {
    forall m, k :: m in s.objects && k in NamesIn(s.objects, m) ==> k in s.objects && s.objects[k].item.SegmentObject?
  }

  /** What a writer may still publish is there, as old as its put at most. */
  ghost predicate PendingThere(c: Config, s: Cluster) {
    forall k :: InTime(c, s, k) ==>
      k in s.objects && s.objects[k].item.SegmentObject? && s.objects[k].modifiedAt >= s.pending[k]
  }

  ghost predicate PhaseOk(c: Config, s: Cluster) {
    match s.phase
    case Idle => true
    case Began(moment) => moment <= s.now
    case Reading(moment, manifests, unread, live) =>
      && moment <= s.now
      && (forall m :: m in s.objects && IsManifestKey(c, m) && m !in manifests ==> s.objects[m].modifiedAt >= moment)
      && (forall m, k :: m in s.objects && m !in unread && k in NamesIn(s.objects, m) ==>
            k in live || Recent(c, s.objects, moment, k))
    case Scanning(moment, protected, todo) =>
      && moment <= s.now
      && (forall m :: m in s.objects && IsManifestKey(c, m) && m !in protected ==> s.objects[m].modifiedAt >= moment)
      && (forall m, k :: m in s.objects && k in NamesIn(s.objects, m) ==>
            k in protected || Recent(c, s.objects, moment, k))
  }

  ghost predicate Inv(c: Config, s: Cluster) {
    c.graceSeconds > 0.0 && WellKept(c, s) && NothingMissing(s) && PendingThere(c, s) && PhaseOk(c, s)
  }

  // ---- steps -----------------------------------------------------------

  lemma PublishKeeps(c: Config, s: Cluster, manifest: string, adds: set<string>, drops: set<string>)
    requires Inv(c, s) && Enabled(c, s, Publish(manifest, adds, drops))
    ensures var s' := Apply(c, s, Publish(manifest, adds, drops));
      WellKept(c, s') && NothingMissing(s') && PendingThere(c, s')
  {
    var s' := Apply(c, s, Publish(manifest, adds, drops));
    assert forall m :: m != manifest ==> NamesIn(s'.objects, m) == NamesIn(s.objects, m);
    assert forall k :: k in adds ==> k in s.objects && k != manifest;
    assert forall k :: InTime(c, s', k) ==> InTime(c, s, k);
  }

  /** A name published during a collection was put too late for that collection to delete. */
  lemma PublishKeepsPhase(c: Config, s: Cluster, manifest: string, adds: set<string>, drops: set<string>)
    requires Inv(c, s) && Enabled(c, s, Publish(manifest, adds, drops))
    ensures PhaseOk(c, Apply(c, s, Publish(manifest, adds, drops)))
  {
    hide IsManifestName, StartsWith, NothingMissing;
    var s' := Apply(c, s, Publish(manifest, adds, drops));
    assert forall m :: m != manifest ==> NamesIn(s'.objects, m) == NamesIn(s.objects, m);
    assert forall k :: k in adds ==> InTime(c, s, k) && k != manifest;
  }

  lemma PutOk(c: Config, s: Cluster, key: string, bytes: nat)
    requires Inv(c, s) && Enabled(c, s, Put(key, bytes))
    ensures Inv(c, Apply(c, s, Put(key, bytes)))
  {
    hide PhaseOk, IsManifestName;
    var s' := Apply(c, s, Put(key, bytes));
    assert forall m :: NamesIn(s'.objects, m) == NamesIn(s.objects, m);
    assert forall k :: k != key && InTime(c, s', k) ==> InTime(c, s, k);
    PutKeepsPhase(c, s, key, bytes);
  }

  lemma PutKeepsPhase(c: Config, s: Cluster, key: string, bytes: nat)
    requires Inv(c, s) && Enabled(c, s, Put(key, bytes))
    ensures PhaseOk(c, Apply(c, s, Put(key, bytes)))
  {
    hide NothingMissing, PendingThere, IsManifestName;
    var s' := Apply(c, s, Put(key, bytes));
    assert forall m :: NamesIn(s'.objects, m) == NamesIn(s.objects, m);
  }

  /** The one step that deletes: what it deletes is named by nothing and published by no one. */
  lemma InspectOk(c: Config, s: Cluster, key: string)
    requires Inv(c, s) && Enabled(c, s, Inspect(key))
    ensures Inv(c, Apply(c, s, Inspect(key)))
    ensures forall m :: m in s.objects && IsManifestKey(c, m) ==> m in Apply(c, s, Inspect(key)).objects
  {
    hide IsManifestName, StartsWith;
    var s' := Apply(c, s, Inspect(key));
    if Deletable(c, s, key) {
      assert !IsManifestKey(c, key);
      assert forall m :: m in s.objects ==> key !in NamesIn(s.objects, m);
      assert forall m :: NamesIn(s'.objects, m) == NamesIn(s.objects, m);
      assert !InTime(c, s, key);
      assert forall k :: InTime(c, s', k) <==> InTime(c, s, k);
    }
  }

  lemma StepOk(c: Config, s: Cluster, step: Step)
    requires Inv(c, s) && Enabled(c, s, step)
    ensures Inv(c, Apply(c, s, step))
    ensures forall m :: m in s.objects && IsManifestKey(c, m) ==> m in Apply(c, s, step).objects
  {
    match step
    case Tick(seconds) =>
      assert forall k :: InTime(c, Apply(c, s, step), k) ==> InTime(c, s, k);
    case Put(key, bytes) => PutOk(c, s, key, bytes);
    case Publish(manifest, adds, drops) =>
      PublishKeeps(c, s, manifest, adds, drops);
      PublishKeepsPhase(c, s, manifest, adds, drops);
    case Abandon(key) =>
      assert forall k :: InTime(c, Apply(c, s, step), k) ==> InTime(c, s, k);
    case Begin =>
    case FindManifests =>
    case ReadManifest(key) =>
    case ListKeys =>
    case Inspect(key) => InspectOk(c, s, key);
    case Stop =>
  }

  lemma {:induction false} RunsKeepInv(c: Config, run: seq<Cluster>, i: nat)
    requires c.graceSeconds > 0.0 && IsRun(c, run) && i < |run|
    ensures Inv(c, run[i])
  {
    if i != 0 {
      RunsKeepInv(c, run, i - 1);
      assert Next(c, run[i - 1], run[i]);
      var step :| Enabled(c, run[i - 1], step) && run[i] == Apply(c, run[i - 1], step);
      StepOk(c, run[i - 1], step);
    }
  }

  /** Whatever interleaving, no object named by a manifest is ever missing. */
  lemma CollectionNeverDeletesLive(c: Config, run: seq<Cluster>, i: nat, manifest: string, key: string)
    requires c.graceSeconds > 0.0 && IsRun(c, run) && i < |run|
    requires manifest in run[i].objects && key in NamesIn(run[i].objects, manifest)
    ensures key in run[i].objects && run[i].objects[key].item.SegmentObject?
  {
    RunsKeepInv(c, run, i);
  }

  /** Whatever interleaving, no manifest is ever deleted. */
  lemma {:induction false} ManifestsSurvive(c: Config, run: seq<Cluster>, i: nat, j: nat, manifest: string)
    requires c.graceSeconds > 0.0 && IsRun(c, run) && i <= j < |run|
    requires manifest in run[i].objects && IsManifestKey(c, manifest)
    ensures manifest in run[j].objects && run[j].objects[manifest].item.ManifestObject?
    decreases j
  {
    hide Apply, Enabled;
    RunsKeepInv(c, run, j);
    if i < j {
      ManifestsSurvive(c, run, i, j - 1, manifest);
      RunsKeepInv(c, run, j - 1);
      assert Next(c, run[j - 1], run[j]);
      var step :| Enabled(c, run[j - 1], step) && run[j] == Apply(c, run[j - 1], step);
      StepOk(c, run[j - 1], step);
    }
  }

  /** A writer's own manifest, once there, is there in every later state, and so is whatever it names by then. */
  lemma WritersManifestsSurvive(c: Config, run: seq<Cluster>, i: nat, j: nat, m: string, p: nat, directory: string)
    requires c.graceSeconds > 0.0 && IsRun(c, run) && i <= j < |run|
    requires m in run[i].objects && WritersManifest(m, p, directory) && exists rest :: m == c.prefix + rest
    ensures m in run[j].objects && run[j].objects[m].item.ManifestObject?
    ensures forall k :: k in run[j].objects[m].item.names ==> k in run[j].objects && run[j].objects[k].item.SegmentObject?
  {
    hide IsRun, IsManifestName, StartsWith;
    PrefixIff(m, c.prefix);
    assert Keys.Render(Keys.ManifestKey(p)) == "manifests/p" + Keys.Decimal(p) + "/current.json";
    WritersNames(p, 0, 0, directory);
    ManifestsSurvive(c, run, i, j, m);
    forall k | k in run[j].objects[m].item.names
      ensures k in run[j].objects && run[j].objects[k].item.SegmentObject?
    {
      CollectionNeverDeletesLive(c, run, j, m, k);
    }
  }

  // ---- a collection on its own -----------------------------------------

  predicate IsCollectors(step: Step) {
    step.FindManifests? || step.ReadManifest? || step.ListKeys? || step.Inspect?
  }

  /** How far a collection has come that began with `base` and was not interrupted. */
  ghost predicate Collecting(c: Config, base: map<string, Entry>, moment: real, s: Cluster) {
    match s.phase
    case Idle => false
    case Began(m) => m == moment && s.objects == base
    case Reading(m, manifests, unread, live) =>
      && m == moment && s.objects == base && unread <= manifests
      && (forall k :: k in manifests <==> ManifestAt(base, c.prefix, k))
      && (forall k :: k in live <==> NamedBy(base, manifests - unread, k))
    case Scanning(m, protected, todo) =>
      && m == moment && (forall k :: k in protected <==> Protected(base, c.prefix, k))
      && (forall k :: k in s.objects ==> k in base && s.objects[k] == base[k])
      && (forall k :: k in todo ==> k in s.objects && StartsWith(k, c.prefix))
      && (forall k :: k in base && k !in todo ==> (k in s.objects <==> k !in Doomed(base, c.prefix, moment, c.graceSeconds)))
  }

  ghost predicate NamedBy(objects: map<string, Entry>, manifests: set<string>, key: string) {
    exists m :: m in manifests && key in NamesIn(objects, m)
  }

  lemma NamedByOneMore(objects: map<string, Entry>, manifests: set<string>, m: string)
    ensures forall k :: NamedBy(objects, manifests + {m}, k) <==> NamedBy(objects, manifests, k) || k in NamesIn(objects, m)
  {
  }

  lemma CollectingStep(c: Config, base: map<string, Entry>, moment: real, s: Cluster, step: Step)
    requires Collecting(c, base, moment, s) && Enabled(c, s, step) && IsCollectors(step)
    ensures Collecting(c, base, moment, Apply(c, s, step))
  {
    hide IsManifestName, StartsWith;
    match step
    case FindManifests =>
    case ReadManifest(key) =>
      var (manifests, unread) := (s.phase.manifests, s.phase.unread);
      NamedByOneMore(base, manifests - unread, key);
      assert manifests - (unread - {key}) == manifests - unread + {key};
    case ListKeys =>
      assert s.phase.manifests - {} == s.phase.manifests;
      assert forall k :: NamedBy(base, s.phase.manifests, k) <==> Referenced(base, c.prefix, k);
    case Inspect(key) =>
  }

  /** A collection that no writer interrupts deletes what one call of `Collect` does. */
  lemma {:induction false} AloneIsCollect(c: Config, run: seq<Cluster>, steps: seq<Step>, i: nat, j: nat)
    requires i <= j < |run| && |steps| == |run| - 1 && run[i].phase.Began?
    requires forall k :: i <= k < j ==>
      Enabled(c, run[k], steps[k]) && run[k + 1] == Apply(c, run[k], steps[k]) && IsCollectors(steps[k])
    ensures Collecting(c, run[i].objects, run[i].phase.moment, run[j])
    ensures run[j].phase.Scanning? && run[j].phase.todo == {} ==>
      forall k :: k in run[j].objects <==>
        k in run[i].objects && k !in Doomed(run[i].objects, c.prefix, run[i].phase.moment, c.graceSeconds)
    decreases j
  {
    hide Enabled, Apply;
    if i < j {
      AloneIsCollect(c, run, steps, i, j - 1);
      CollectingStep(c, run[i].objects, run[i].phase.moment, run[j - 1], steps[j - 1]);
    }
  }

  // ---- retired segments ------------------------------------------------

  /** No manifest names it: it was dropped, or has not been published. */
  predicate Unlisted(s: Cluster, key: string) {
    forall m :: m in s.objects ==> key !in NamesIn(s.objects, m)
  }

  lemma YoungStep(c: Config, s: Cluster, step: Step, key: string, since: real)
    requires Inv(c, s) && Enabled(c, s, step)
    requires key in s.objects && s.objects[key].modifiedAt >= since
    ensures var s' := Apply(c, s, step);
      && s.now <= s'.now
      && (s'.now < since + c.graceSeconds ==> key in s'.objects && s'.objects[key].modifiedAt >= since)
  {
  }

  /** Whatever interleaving, an object written since `since` is there until the grace period after that. */
  lemma {:induction false} YoungSurvives(c: Config, run: seq<Cluster>, i: nat, j: nat, key: string, since: real)
    requires c.graceSeconds > 0.0 && IsRun(c, run) && i <= j < |run|
    requires key in run[i].objects && run[i].objects[key].modifiedAt >= since
    ensures run[i].now <= run[j].now
    ensures run[j].now < since + c.graceSeconds ==> key in run[j].objects && run[j].objects[key].modifiedAt >= since
    decreases j
  {
    hide Apply, Enabled, Inv;
    if i < j {
      YoungSurvives(c, run, i, j - 1, key, since);
      RunsKeepInv(c, run, j - 1);
      assert Next(c, run[j - 1], run[j]);
      var step :| Enabled(c, run[j - 1], step) && run[j] == Apply(c, run[j - 1], step);
      TimePasses(c, run[j - 1], step);
      if run[j].now < since + c.graceSeconds {
        YoungStep(c, run[j - 1], step, key, since);
      }
    }
  }

  lemma TimePasses(c: Config, s: Cluster, step: Step)
    requires Enabled(c, s, step)
    ensures s.now <= Apply(c, s, step).now
  {
  }

  lemma Continue(c: Config, run: seq<Cluster>, step: Step) returns (longer: seq<Cluster>)
    requires IsRun(c, run) && Enabled(c, run[|run| - 1], step)
    ensures IsRun(c, longer) && longer == run + [Apply(c, run[|run| - 1], step)]
  {
    hide Apply, Enabled;
    longer := run + [Apply(c, run[|run| - 1], step)];
    assert Next(c, run[|run| - 1], Apply(c, run[|run| - 1], step));
  }

  /** A collection that begins `seconds` from now, as far as having found the manifests. */
  lemma BeginsReading(c: Config, run: seq<Cluster>, seconds: real) returns (longer: seq<Cluster>)
    requires IsRun(c, run) && seconds >= 0.0
    ensures IsRun(c, longer) && run < longer
    ensures var (s, s') := (run[|run| - 1], longer[|longer| - 1]);
      && s'.objects == s.objects && s'.now == s.now + seconds
      && s'.phase.Reading? && s'.phase.moment == s'.now && s'.phase.live == {}
      && forall m :: m in s'.phase.unread || m in s'.phase.manifests ==> IsManifestKey(c, m)
  {
    hide Next, IsManifestName;
    longer := run;
    if !run[|run| - 1].phase.Idle? {
      longer := Continue(c, longer, Stop);
    }
    longer := Continue(c, longer, Tick(seconds));
    longer := Continue(c, longer, Begin);
    longer := Continue(c, longer, FindManifests);
  }

  /** The manifests are read one by one; a key that none names is then not protected. */
  lemma {:induction false} ReadsAll(c: Config, run: seq<Cluster>, key: string) returns (longer: seq<Cluster>)
    requires IsRun(c, run) && run[|run| - 1].phase.Reading? && Unlisted(run[|run| - 1], key)
    requires key !in run[|run| - 1].phase.live
    ensures IsRun(c, longer) && run <= longer
    ensures var (s, s') := (run[|run| - 1], longer[|longer| - 1]);
      && s'.objects == s.objects && s'.now == s.now
      && s'.phase.Reading? && s'.phase.moment == s.phase.moment && s'.phase.manifests == s.phase.manifests
      && s'.phase.unread == {} && key !in s'.phase.live
    decreases run[|run| - 1].phase.unread
  {
    hide Next;
    var s := run[|run| - 1];
    if s.phase.unread == {} {
      longer := run;
    } else {
      var m :| m in s.phase.unread;
      longer := Continue(c, run, ReadManifest(m));
      longer := ReadsAll(c, longer, key);
    }
  }

  /** Anything older than `now` that no manifest names can be deleted less than the grace period from now. */
  lemma OldCanGo(c: Config, run: seq<Cluster>, key: string) returns (longer: seq<Cluster>)
    requires c.graceSeconds > 0.0 && IsRun(c, run)
    requires var s := run[|run| - 1];
      && key in s.objects && StartsWith(key, c.prefix) && !IsManifestName(key) && Unlisted(s, key)
      && s.objects[key].modifiedAt < s.now
    ensures IsRun(c, longer) && run < longer
    ensures key !in longer[|longer| - 1].objects
    ensures run[|run| - 1].now <= longer[|longer| - 1].now < run[|run| - 1].now + c.graceSeconds
  {
    hide Next, IsManifestName, StartsWith;
    var s := run[|run| - 1];
    var due := s.objects[key].modifiedAt + c.graceSeconds;
    longer := BeginsReading(c, run, if due < s.now then 0.0 else due - s.now);
    longer := ReadsAll(c, longer, key);
    longer := Continue(c, longer, ListKeys);
    longer := Continue(c, longer, Inspect(key));
  }

  /**
   Age is counted from the last write, not from the retirement. A segment that no manifest names
   any more is there for the grace period from now on, whatever happens, exactly when it was
   written now: one written earlier can be deleted while it is still being read.
   */
  lemma RetiredSegmentKeptIff(c: Config, run: seq<Cluster>, key: string)
    requires c.graceSeconds > 0.0 && IsRun(c, run)
    requires var s := run[|run| - 1];
      key in s.objects && StartsWith(key, c.prefix) && !IsManifestName(key) && Unlisted(s, key)
    ensures var s := run[|run| - 1];
      (forall longer: seq<Cluster>, j: nat ::
        IsRun(c, longer) && run <= longer && |run| <= j < |longer| && longer[j].now < s.now + c.graceSeconds
        ==> key in longer[j].objects)
      <==> s.objects[key].modifiedAt == s.now
  {
    hide Next, IsManifestName, StartsWith;
    var s := run[|run| - 1];
    RunsKeepInv(c, run, |run| - 1);
    if s.objects[key].modifiedAt == s.now {
      forall longer: seq<Cluster>, j: nat | IsRun(c, longer) && run <= longer && |run| <= j < |longer|
        ensures longer[j].now < s.now + c.graceSeconds ==> key in longer[j].objects
      {
        assert longer[|run| - 1] == s;
        YoungSurvives(c, longer, |run| - 1, j, key, s.now);
      }
    } else {
      var longer := OldCanGo(c, run, key);
      assert longer[|longer| - 1].now < s.now + c.graceSeconds;
    }
  }

  /**
   The documented case: a segment is published, a later publish drops it, and a collection deletes
   it less than the grace period after that publish.
   */
  lemma RetiredSegmentCanGo(c: Config) returns (run: seq<Cluster>, i: nat, manifest: string, key: string)
    requires c.graceSeconds > 0.0
    ensures IsRun(c, run) && i + 1 < |run| - 1
    ensures key in NamesIn(run[i].objects, manifest) && Unlisted(run[i + 1], key) && key in run[i + 1].objects
    ensures key !in run[|run| - 1].objects && run[|run| - 1].now < run[i + 1].now + c.graceSeconds
  {
    hide IsRun;
    manifest, key := c.prefix + "current.json", c.prefix + "a";
    Named(c.prefix);
    hide IsManifestName, StartsWith;
    run := Start(c);
    run := Continue(c, run, Put(key, 1));
    run := Continue(c, run, Publish(manifest, {key}, {}));
    run := Continue(c, run, Tick(c.graceSeconds));
    i := |run| - 1;
    run := Continue(c, run, Publish(manifest, {}, {key}));
    run := OldCanGo(c, run, key);
  }

  lemma Start(c: Config) returns (run: seq<Cluster>)
    ensures IsRun(c, run) && run == [Cluster(map[], 0.0, map[], Idle)]
  {
    run := [Cluster(map[], 0.0, map[], Idle)];
  }

  lemma Named(prefix: string)
    ensures IsManifestName(prefix + "current.json") && !IsManifestName(prefix + "a")
    ensures StartsWith(prefix + "current.json", prefix) && StartsWith(prefix + "a", prefix)
    ensures prefix + "current.json" != prefix + "a"
  {
    var (m, k) := (prefix + "current.json", prefix + "a");
    assert m[|m| - 12..] == "current.json";
    assert k[|k| - 1] == 'a';
    if EndsWith(k, "current.json") {
      EndsAlike(k, "current.json");
    }
    if EndsWith(k, "manifest.json") {
      EndsAlike(k, "manifest.json");
    }
  }
}
