/** The collector as one call: src/aether/index/gc.py over an otherwise quiet store. */
module Collector {
  import opened Prelude
  import opened Sorting
  import Keys

  /** What a manifest object names, or a segment's bytes, which the collector never reads. */
  datatype Object = SegmentObject | ManifestObject(names: set<string>)

  datatype Entry = Entry(item: Object, bytes: nat, modifiedAt: real)

  predicate StartsWith(s: string, prefix: string) {
    |prefix| <= |s| && s[..|prefix|] == prefix
  }

  predicate EndsWith(s: string, suffix: string) {
    |suffix| <= |s| && s[|s| - |suffix|..] == suffix
  }

  /** Both kinds of manifest: one per partition, or a single one at the top. */
  predicate IsManifestName(key: string) {
    EndsWith(key, "current.json") || EndsWith(key, "manifest.json")
  }

  lemma PrefixIff(s: string, prefix: string)
    ensures StartsWith(s, prefix) <==> exists rest :: s == prefix + rest
  {
    if StartsWith(s, prefix) {
      assert s == prefix + s[|prefix|..];
    }
  }

  lemma SuffixIff(s: string, suffix: string)
    ensures EndsWith(s, suffix) <==> exists rest :: s == rest + suffix
  {
    if EndsWith(s, suffix) {
      assert s == s[..|s| - |suffix|] + suffix;
    }
  }

  /** A streamed partition's manifest and a batch index's both have a manifest's name; no segment has. */
  lemma WritersNames(p: nat, first: nat, last: nat, directory: string)
    ensures IsManifestName(Keys.Render(Keys.ManifestKey(p))) && IsManifestName(directory + "manifest.json")
    ensures !IsManifestName(Keys.Render(Keys.SegmentKey(p, first, last)))
  {
    var streamed := "manifests/p" + Keys.Decimal(p) + "/";
    assert Keys.Render(Keys.ManifestKey(p)) == streamed + "current.json";
    SuffixIff(Keys.Render(Keys.ManifestKey(p)), "current.json");
    SuffixIff(directory + "manifest.json", "manifest.json");
    NotAManifest(Keys.Directory(p) + "/" + Keys.Padded(first) + "-" + Keys.Padded(last) + ".seg");
  }

  lemma NotAManifest(s: string)
    requires s != "" && s[|s| - 1] == 'g'
    ensures !IsManifestName(s)
  {
    if EndsWith(s, "current.json") {
      EndsAlike(s, "current.json");
    }
    if EndsWith(s, "manifest.json") {
      EndsAlike(s, "manifest.json");
    }
  }

  lemma EndsAlike(s: string, suffix: string)
    requires EndsWith(s, suffix) && suffix != ""
    ensures s != "" && s[|s| - 1] == suffix[|suffix| - 1]
  {
    assert s[|s| - |suffix|..][|suffix| - 1] == s[|s| - 1];
  }

  datatype Orphan = Orphan(key: string, bytes: nat, ageSeconds: real)

  datatype CollectionResult = CollectionResult(
    scanned: nat, protected: nat, manifests: seq<string>, deleted: seq<Orphan>, spared: seq<Orphan>, dryRun: bool)

  class Bucket {
    var objects: map<string, Entry>

    constructor (objects: map<string, Entry>)
      ensures this.objects == objects
    {
      this.objects := objects;
    }

    /** A snapshot of the keys under a prefix, each once. */
    method ListKeys(prefix: string) returns (keys: seq<string>)
      ensures Distinct(keys)
      ensures forall k :: k in keys <==> k in objects && StartsWith(k, prefix)
    {
      keys := [];
      var todo := objects.Keys;
      while todo != {}
        invariant todo <= objects.Keys && Distinct(keys)
        invariant forall k :: k in keys <==> k in objects && k !in todo && StartsWith(k, prefix)
        decreases todo
      {
        var k :| k in todo;
        if StartsWith(k, prefix) {
          keys := keys + [k];
        }
        todo := todo - {k};
      }
    }

    method Delete(key: string)
      modifies this
      ensures objects == old(objects) - {key}
    {
      objects := objects - {key};
    }
  }

  // ---- what a collection is for ----------------------------------------

  predicate ManifestAt(objects: map<string, Entry>, prefix: string, key: string) {
    key in objects && StartsWith(key, prefix) && IsManifestName(key)
  }

  /** Named by some manifest under the prefix. */
  ghost predicate Referenced(objects: map<string, Entry>, prefix: string, key: string) {
    exists m :: ManifestAt(objects, prefix, m) && objects[m].item.ManifestObject? && key in objects[m].item.names
  }

  ghost predicate Protected(objects: map<string, Entry>, prefix: string, key: string) {
    ManifestAt(objects, prefix, key) || Referenced(objects, prefix, key)
  }

  ghost predicate Unprotected(objects: map<string, Entry>, prefix: string, key: string) {
    key in objects && StartsWith(key, prefix) && !Protected(objects, prefix, key)
  }

  predicate OldEnough(moment: real, graceSeconds: real, e: Entry) {
    moment - e.modifiedAt >= graceSeconds
  }

  /** Every object filed under a manifest's name is one. */
  predicate ManifestsReadable(objects: map<string, Entry>, prefix: string) {
    forall k :: k in objects && ManifestAt(objects, prefix, k) ==> objects[k].item.ManifestObject?
  }

  /** The entries are of exactly the keys `chosen`, each once, with its size and the time since it was written. */
  ghost predicate Reports(orphans: seq<Orphan>, objects: map<string, Entry>, moment: real, chosen: iset<string>) {
    && (forall i, j :: 0 <= i < j < |orphans| ==> orphans[i].key != orphans[j].key)
    && (forall o :: o in orphans ==> o.key in chosen && o.key in objects)
    && (forall o :: o in orphans ==>
          o.bytes == objects[o.key].bytes && o.ageSeconds == moment - objects[o.key].modifiedAt)
    && (forall k :: k in chosen ==> exists o :: o in orphans && o.key == k)
  }

  ghost function Doomed(objects: map<string, Entry>, prefix: string, moment: real, graceSeconds: real): iset<string> {
    iset k | Unprotected(objects, prefix, k) && OldEnough(moment, graceSeconds, objects[k])
  }

  ghost function Spared(objects: map<string, Entry>, prefix: string, moment: real, graceSeconds: real): iset<string> {
    iset k | Unprotected(objects, prefix, k) && !OldEnough(moment, graceSeconds, objects[k])
  }

  /** A writer's manifest: a streamed partition's, or a batch index's. */
  predicate WritersManifest(m: string, p: nat, directory: string) {
    m == "manifests/p" + Keys.Decimal(p) + "/current.json" || m == directory + "manifest.json"
  }

  /** No collection is after a writer's manifest, or after anything it names. */
  lemma WritersKeepTheirs(objects: map<string, Entry>, prefix: string, moment: real, graceSeconds: real, m: string,
                          p: nat, directory: string)
    requires m in objects && exists rest :: m == prefix + rest
    requires WritersManifest(m, p, directory)
    ensures m !in Doomed(objects, prefix, moment, graceSeconds)
    ensures objects[m].item.ManifestObject? ==>
      forall k :: k in objects[m].item.names ==> k !in Doomed(objects, prefix, moment, graceSeconds)
  {
    hide StartsWith, IsManifestName;
    PrefixIff(m, prefix);
    assert Keys.Render(Keys.ManifestKey(p)) == "manifests/p" + Keys.Decimal(p) + "/current.json";
    WritersNames(p, 0, 0, directory);
    assert ManifestAt(objects, prefix, m);
    if objects[m].item.ManifestObject? {
      forall k | k in objects[m].item.names
        ensures k !in Doomed(objects, prefix, moment, graceSeconds)
      {
        assert Referenced(objects, prefix, k);
      }
    }
  }

  /** What is left once the doomed are gone: every writer's manifest and everything it names. */
  ghost predicate KeepsWriters(before: map<string, Entry>, after: map<string, Entry>, prefix: string) {
    forall m, p: nat, directory :: m in before && StartsWith(m, prefix) && WritersManifest(m, p, directory) ==>
      && m in after
      && (before[m].item.ManifestObject? ==> forall k :: k in before[m].item.names && k in before ==> k in after)
  }

  lemma WritersKept(before: map<string, Entry>, after: map<string, Entry>, prefix: string, moment: real,
                    graceSeconds: real)
    requires forall k :: k in before && k !in Doomed(before, prefix, moment, graceSeconds) ==> k in after
    ensures KeepsWriters(before, after, prefix)
  {
    hide Doomed, StartsWith, WritersManifest;
    forall m, p: nat, directory | m in before && StartsWith(m, prefix) && WritersManifest(m, p, directory)
      ensures m in after
      ensures before[m].item.ManifestObject? ==> forall k :: k in before[m].item.names && k in before ==> k in after
    {
      PrefixIff(m, prefix);
      WritersKeepTheirs(before, prefix, moment, graceSeconds, m, p, directory);
    }
  }

  /** A segment that no object under the prefix names is deleted once it has aged. */
  lemma UnnamedSegmentsGo(objects: map<string, Entry>, prefix: string, moment: real, graceSeconds: real, p: nat,
                          first: nat, last: nat)
    requires var k := Keys.Render(Keys.SegmentKey(p, first, last));
      && k in objects && (exists rest :: k == prefix + rest) && moment - objects[k].modifiedAt >= graceSeconds
      && forall m :: m in objects && objects[m].item.ManifestObject? ==> k !in objects[m].item.names
    ensures Keys.Render(Keys.SegmentKey(p, first, last)) in Doomed(objects, prefix, moment, graceSeconds)
  {
    hide StartsWith, IsManifestName;
    var k := Keys.Render(Keys.SegmentKey(p, first, last));
    PrefixIff(k, prefix);
    WritersNames(p, first, last, "");
  }

  // ---- the calls -------------------------------------------------------

  method FindManifests(bucket: Bucket, prefix: string) returns (found: seq<string>)
    ensures Distinct(found) && SortedBy(found, StrLe)
    ensures forall k :: k in found <==> ManifestAt(bucket.objects, prefix, k)
  {
    var keys := bucket.ListKeys(prefix);
    found := [];
    for i := 0 to |keys|
      invariant forall k :: k in found <==> k in keys[..i] && IsManifestName(k)
      invariant Distinct(found)
    {
      if IsManifestName(keys[i]) {
        found := found + [keys[i]];
      }
    }
    assert keys[..|keys|] == keys;
    found := Ordered(found);
  }

  method Ordered(keys: seq<string>) returns (r: seq<string>)
    ensures SortedBy(r, StrLe) && multiset(r) == multiset(keys)
    ensures Distinct(keys) ==> Distinct(r)
    ensures forall k :: k in r <==> k in keys
  {
    hide StrLe;
    StrOrder();
    r := Sort(keys, StrLe);
    SortSorted(keys, StrLe);
    forall k
      ensures k in r <==> k in keys
    {
      SortMember(keys, StrLe, k);
    }
    if Distinct(keys) {
      DistinctPermutation(keys, r);
    }
  }

  /** Every key any of `manifests` names. One that is gone names nothing; an object that is not a manifest is an error. */
  method ReferencedKeys(bucket: Bucket, manifests: seq<string>) returns (r: Result<set<string>>)
    ensures r.Ok? <==> forall m :: m in manifests && m in bucket.objects ==> bucket.objects[m].item.ManifestObject?
    ensures r.Err? ==> r.error == ValueError
    ensures r.Ok? ==> forall k :: k in r.value <==>
              exists m :: m in manifests && m in bucket.objects && k in bucket.objects[m].item.names
  {
    var keys: set<string> := {};
    for i := 0 to |manifests|
      invariant forall m :: m in manifests[..i] && m in bucket.objects ==> bucket.objects[m].item.ManifestObject?
      invariant forall k :: k in keys <==>
                  exists m :: m in manifests[..i] && m in bucket.objects && k in bucket.objects[m].item.names
    {
      if manifests[i] in bucket.objects {
        var e := bucket.objects[manifests[i]];
        if !e.item.ManifestObject? {
          assert manifests[i] in manifests;
          return Err(ValueError);
        }
        keys := keys + e.item.names;
      }
    }
    r := Ok(keys);
  }

  /** The keys already looked at that are unprotected and, as `doomed` says, old enough or not. */
  ghost function Among(keys: seq<string>, protected: set<string>, objects: map<string, Entry>,
                       moment: real, graceSeconds: real, doomed: bool): iset<string>
  {
    iset k | k in keys && k !in protected && k in objects && OldEnough(moment, graceSeconds, objects[k]) == doomed
  }

  lemma AmongStep(keys: seq<string>, i: nat, protected: set<string>, objects: map<string, Entry>,
                  moment: real, graceSeconds: real, doomed: bool)
    requires i < |keys| && keys[i] in objects && Distinct(keys)
    ensures var (sofar, more) := (Among(keys[..i], protected, objects, moment, graceSeconds, doomed),
                                  Among(keys[..i + 1], protected, objects, moment, graceSeconds, doomed));
      && keys[i] !in sofar
      && more == if keys[i] !in protected && OldEnough(moment, graceSeconds, objects[keys[i]]) == doomed
                 then sofar + iset{keys[i]} else sofar
  {
    assert keys[..i + 1] == keys[..i] + [keys[i]];
  }

  lemma AmongNone(keys: seq<string>, protected: set<string>, objects: map<string, Entry>, moment: real, graceSeconds: real)
    ensures Among(keys[..0], protected, objects, moment, graceSeconds, true) == iset{}
    ensures Among(keys[..0], protected, objects, moment, graceSeconds, false) == iset{}
    ensures Reports([], objects, moment, iset{})
  {
  }

  lemma ReportsOneMore(orphans: seq<Orphan>, objects: map<string, Entry>, moment: real, chosen: iset<string>, k: string)
    requires Reports(orphans, objects, moment, chosen) && k !in chosen && k in objects
    ensures Reports(orphans + [Orphan(k, objects[k].bytes, moment - objects[k].modifiedAt)], objects, moment,
                    chosen + iset{k})
  {
    var all := orphans + [Orphan(k, objects[k].bytes, moment - objects[k].modifiedAt)];
    assert forall i | 0 <= i < |orphans| :: orphans[i] in orphans && orphans[i].key in chosen;
    forall x | x in chosen + iset{k}
      ensures exists o :: o in all && o.key == x
    {
      if x == k {
        assert all[|orphans|].key == k;
      } else {
        var o :| o in orphans && o.key == x;
        assert o in all;
      }
    }
  }

  /** Look at one unprotected object, and delete it if it is old enough and that was asked for. */
  method Inspect(bucket: Bucket, key: string, moment: real, graceSeconds: real, delete: bool)
    returns (orphan: Orphan, doomed: bool)
    requires key in bucket.objects
    modifies bucket
    ensures orphan == Orphan(key, old(bucket.objects)[key].bytes, moment - old(bucket.objects)[key].modifiedAt)
    ensures doomed <==> OldEnough(moment, graceSeconds, old(bucket.objects)[key])
    ensures bucket.objects == if doomed && delete then old(bucket.objects) - {key} else old(bucket.objects)
  {
    var e := bucket.objects[key];
    orphan := Orphan(key, e.bytes, moment - e.modifiedAt);
    doomed := !(orphan.ageSeconds < graceSeconds);
    if doomed && delete {
      bucket.Delete(key);
    }
  }

  /** The loop of `collect`: each listed key is protected, spared, or deleted. */
  method Sweep(bucket: Bucket, keys: seq<string>, protected: set<string>, moment: real, graceSeconds: real, delete: bool)
    returns (kept: nat, deleted: seq<Orphan>, spared: seq<Orphan>)
    requires Distinct(keys) && forall k :: k in keys ==> k in bucket.objects
    modifies bucket
    ensures |keys| == kept + |deleted| + |spared|
    ensures Reports(deleted, old(bucket.objects), moment,
                    Among(keys, protected, old(bucket.objects), moment, graceSeconds, true))
    ensures Reports(spared, old(bucket.objects), moment,
                    Among(keys, protected, old(bucket.objects), moment, graceSeconds, false))
    ensures forall k :: k in bucket.objects <==>
              k in old(bucket.objects) &&
              !(delete && k in Among(keys, protected, old(bucket.objects), moment, graceSeconds, true))
    ensures forall k :: k in bucket.objects ==> bucket.objects[k] == old(bucket.objects)[k]
  {
    hide Among, Reports, OldEnough;
    AmongNone(keys, protected, bucket.objects, moment, graceSeconds);
    ghost var before := bucket.objects;
    kept, deleted, spared := 0, [], [];
    ghost var aged, young: iset<string> := iset{}, iset{};
    for i := 0 to |keys|
      invariant i == kept + |deleted| + |spared|
      invariant aged == Among(keys[..i], protected, before, moment, graceSeconds, true)
      invariant young == Among(keys[..i], protected, before, moment, graceSeconds, false)
      invariant Reports(deleted, before, moment, aged) && Reports(spared, before, moment, young)
      invariant forall k :: k in bucket.objects <==> k in before && !(delete && k in aged)
      invariant forall k :: k in bucket.objects ==> bucket.objects[k] == before[k]
    {
      var key := keys[i];
      AmongStep(keys, i, protected, before, moment, graceSeconds, true);
      AmongStep(keys, i, protected, before, moment, graceSeconds, false);
      if key in protected {
        kept := kept + 1;
      } else {
        var orphan, doomed := Inspect(bucket, key, moment, graceSeconds, delete);
        if doomed {
          ReportsOneMore(deleted, before, moment, aged, key);
          deleted, aged := deleted + [orphan], aged + iset{key};
        } else {
          ReportsOneMore(spared, before, moment, young, key);
          spared, young := spared + [orphan], young + iset{key};
        }
      }
    }
    assert keys[..|keys|] == keys;
  }

  lemma {:induction false} DistinctSize(keys: seq<string>)
    requires Distinct(keys)
    ensures |set k | k in keys| == |keys|
  {
    if keys != [] {
      var (init, last) := (keys[..|keys| - 1], keys[|keys| - 1]);
      DistinctSize(init);
      assert (set k | k in keys) == (set k | k in init) + {last};
    }
  }

  /**
   Find, and with `delete` remove, exactly the objects that are under the prefix, unreferenced,
   not manifests, and at least `graceSeconds` old. A dry run reports the same and changes nothing.
   */
  method Collect(bucket: Bucket, prefix: string, graceSeconds: real, delete: bool, moment: real)
    returns (r: Result<CollectionResult>)
    modifies bucket
    ensures r.Ok? <==> graceSeconds >= 0.0 && ManifestsReadable(old(bucket.objects), prefix)
    ensures r.Err? ==> r == Err(ValueError) && bucket.objects == old(bucket.objects)
    ensures r.Ok? ==> Reports(r.value.deleted, old(bucket.objects), moment,
                              Doomed(old(bucket.objects), prefix, moment, graceSeconds))
    ensures r.Ok? ==> Reports(r.value.spared, old(bucket.objects), moment,
                              Spared(old(bucket.objects), prefix, moment, graceSeconds))
    ensures r.Ok? ==> Distinct(r.value.manifests) && SortedBy(r.value.manifests, StrLe)
                      && forall k :: k in r.value.manifests <==> ManifestAt(old(bucket.objects), prefix, k)
    ensures r.Ok? ==> r.value.dryRun == !delete
                      && r.value.scanned == r.value.protected + |r.value.deleted| + |r.value.spared|
    ensures r.Ok? ==> r.value.scanned == |set k | k in old(bucket.objects) && StartsWith(k, prefix)|
    ensures forall k :: k in bucket.objects <==>
              k in old(bucket.objects) &&
              !(r.Ok? && delete && k in Doomed(old(bucket.objects), prefix, moment, graceSeconds))
    ensures forall k :: k in bucket.objects ==> bucket.objects[k] == old(bucket.objects)[k]
    ensures KeepsWriters(old(bucket.objects), bucket.objects, prefix)
  {
    WritersKept(bucket.objects, bucket.objects, prefix, moment, graceSeconds);
    if graceSeconds < 0.0 {
      return Err(ValueError);
    }
    ghost var before := bucket.objects;
    var manifests := FindManifests(bucket, prefix);
    var live := ReferencedKeys(bucket, manifests);
    if live.Err? {
      return Err(ValueError);
    }
    var protected := live.value + set m | m in manifests;
    assert forall k :: k in protected <==> Protected(before, prefix, k);
    var keys := bucket.ListKeys(prefix);
    DistinctSize(keys);
    assert (set k | k in keys) == set k | k in before && StartsWith(k, prefix);
    assert Among(keys, protected, before, moment, graceSeconds, true) == Doomed(before, prefix, moment, graceSeconds);
    assert Among(keys, protected, before, moment, graceSeconds, false) == Spared(before, prefix, moment, graceSeconds);
    var kept, deleted, spared := Sweep(bucket, keys, protected, moment, graceSeconds, delete);
    WritersKept(before, bucket.objects, prefix, moment, graceSeconds);
    r := Ok(CollectionResult(|keys|, kept, manifests, deleted, spared, !delete));
  }
}
