/** The handler of ami.py, statement by statement: it appends to its lists and
    to the `to_tag` dictionary inside its loops and issues its EC2 requests one
    after another. Each method returns the requests it issued, in order, and the
    exception that stopped it, if any. */
module Ami {
  import opened Wrappers
  import opened AmiSpec
  import AmiProperties
  import PyInt
  import Dates

  /** `lambda_handler(event, context)` as written: it reads the two environment
      variables and then, building the `describe_instances` filter, reads
      `target_tag` one line before it is assigned. The function therefore always
      raises, before issuing any request. */
  method LambdaHandler(environ: map<string, string>) returns (outcome: Outcome)
    ensures outcome.requests == [] && outcome.raised.Some?
    ensures "AWS_ACCOUNT_NUMBER" !in environ ==> outcome.raised == Some(KeyError("AWS_ACCOUNT_NUMBER"))
    ensures "AWS_ACCOUNT_NUMBER" in environ && "RETENTION_DAYS" !in environ ==>
      outcome.raised == Some(KeyError("RETENTION_DAYS"))
    ensures "AWS_ACCOUNT_NUMBER" in environ && "RETENTION_DAYS" in environ
            && PyInt.ParseInt(environ["RETENTION_DAYS"]).None? ==>
      outcome.raised == Some(ValueError(environ["RETENTION_DAYS"]))
    ensures outcome.raised == Some(UnboundLocalError("target_tag")) <==>
      && "AWS_ACCOUNT_NUMBER" in environ && "RETENTION_DAYS" in environ
      && PyInt.ParseInt(environ["RETENTION_DAYS"]).Some?
  {
    if "AWS_ACCOUNT_NUMBER" !in environ {
      return Outcome([], Some(KeyError("AWS_ACCOUNT_NUMBER")));
    }
    if "RETENTION_DAYS" !in environ {
      return Outcome([], Some(KeyError("RETENTION_DAYS")));
    }
    var retentionDays := PyInt.ParseInt(environ["RETENTION_DAYS"]);
    if retentionDays.None? {
      return Outcome([], Some(ValueError(environ["RETENTION_DAYS"])));
    }
    return Outcome([], Some(UnboundLocalError("target_tag")));
  }

  /** Lines 15-27: the nested loop collects every instance and its id, reading a
      missing `Instances` entry as empty; then the `sum` comprehension rebuilds
      `instances`, and raises `KeyError` if some reservation has no `Instances`. */
  method Discover(reservations: seq<Reservation>)
    returns (instances: seq<Instance>, instanceIds: seq<string>, raised: Option<Error>)
    ensures |instanceIds| == |Flatten(reservations)|
    ensures forall k :: 0 <= k < |instanceIds| ==> instanceIds[k] == Flatten(reservations)[k].instanceId
    ensures raised.None? <==> !MissingInstances(reservations)
    ensures raised.Some? ==> raised == Some(KeyError("Instances"))
    ensures raised.None? ==> instances == Flatten(reservations)
  {
    instances, instanceIds := [], [];
    for j := 0 to |reservations|
      invariant instances == Flatten(reservations[..j])
      invariant |instanceIds| == |instances|
      invariant forall k :: 0 <= k < |instances| ==> instanceIds[k] == instances[k].instanceId
    {
      var inner := InstancesOf(reservations[j]);
      for i := 0 to |inner|
        invariant instances == Flatten(reservations[..j]) + inner[..i]
        invariant |instanceIds| == |instances|
        invariant forall k :: 0 <= k < |instances| ==> instanceIds[k] == instances[k].instanceId
      {
        instances := instances + [inner[i]];
        instanceIds := instanceIds + [inner[i].instanceId];
      }
      assert reservations[..j + 1][..j] == reservations[..j];
    }
    assert reservations[..|reservations|] == reservations;
    var summed := SumInstances(reservations);
    if summed.None? {
      return instances, instanceIds, Some(KeyError("Instances"));
    }
    instances := summed.value;
    raised := None;
  }

  /** Lines 31-61: one visit per instance. Each visit looks up the retention,
      reads the clock, rebinds `amiName` to the first `Name` tag if there is
      one, issues `create_image`, and files the returned id under its retention
      in `to_tag` (whose key order is kept in `keys`) and in `amiList`. */
  method CreateImages(instances: seq<Instance>, retentionDays: int,
                      clock: nat -> Dates.CivilDateTime, imageIds: nat -> string)
    returns (requests: seq<Request>, toTag: map<int, seq<string>>, keys: seq<int>,
             amiList: seq<string>, raised: Option<Error>)
    ensures var n := CreatedCount(instances, retentionDays);
            var rets := Retentions(instances, retentionDays, n);
            && requests == CreationRequests(instances, retentionDays, clock, n)
            && raised == (if n < |instances| then InstanceFailure(instances, retentionDays, n) else None)
            && amiList == ImageList(imageIds, n)
            && keys == Distinct(rets)
            && toTag == BucketMap(amiList, rets)
  {
    requests, toTag, keys, amiList, raised := [], map[], [], [], None;
    ghost var rets: seq<int> := [];
    var amiName: Option<string> := None;
    var k := 0;
    while k < |instances|
      invariant Visited(instances, retentionDays, clock, imageIds, k, amiName, rets, requests, amiList, keys, toTag)
      invariant raised.None?
    {
      ghost var r := RetentionLookup(instances[k].tags, retentionDays);
      amiName, requests, amiList, keys, toTag, raised :=
        VisitInstance(instances, retentionDays, clock, imageIds, k, amiName, rets, requests, amiList, keys, toTag);
      if raised.Some? {
        return;
      }
      rets := rets + [r.value];
      k := k + 1;
    }
    AllCreated(instances, retentionDays);
  }

  /** Lines 33-61, one pass of the loop over the instances: read the
      retention, rebind `amiName`, and request the image, filing its id under
      the retention. */
  method VisitInstance(instances: seq<Instance>, retentionDays: int, clock: nat -> Dates.CivilDateTime,
                       imageIds: nat -> string, k: nat, amiName: Option<string>, ghost rets: seq<int>,
                       requests: seq<Request>, amiList: seq<string>, keys: seq<int>,
                       toTag: map<int, seq<string>>)
    returns (amiName': Option<string>, requests': seq<Request>, amiList': seq<string>, keys': seq<int>,
             toTag': map<int, seq<string>>, raised: Option<Error>)
    requires k < |instances|
    requires Visited(instances, retentionDays, clock, imageIds, k, amiName, rets, requests, amiList, keys, toTag)
    ensures raised == InstanceFailure(instances, retentionDays, k)
    ensures raised.Some? ==> CreatedCount(instances, retentionDays) == k
    ensures raised.Some? ==> amiName' == amiName && requests' == requests && amiList' == amiList && keys' == keys && toTag' == toTag
    ensures raised.None? ==>
              Visited(instances, retentionDays, clock, imageIds, k + 1, amiName',
                      rets + [RetentionLookup(instances[k].tags, retentionDays).value],
                      requests', amiList', keys', toTag')
  {
    amiName', requests', amiList', keys', toTag', raised := amiName, requests, amiList, keys, toTag, None;
    var instance := instances[k];
    var retention := RetentionLookup(instance.tags, retentionDays);
    if retention.Err? {
      raised := Some(retention.error);
      FailureIsFirst(instances, retentionDays, k);
      return;
    }
    var createTime := clock(k);
    amiName' := FindName(instance.tags.value, amiName);
    assert amiName' == NameAfter(instances, k);
    if amiName'.None? {
      raised := Some(UnboundLocalError("amiName"));
      FailureIsFirst(instances, retentionDays, k);
      return;
    }
    VisitStep(instances, retentionDays, clock, imageIds, k, rets, requests, amiList, keys, toTag);
    requests' := requests + [CreateImageRequest(instance, amiName'.value, createTime)];
    var imageId := imageIds(k);
    var r := retention.value;
    toTag', keys' := Append(toTag, keys, r, imageId);
    amiList' := amiList + [imageId];
  }

  /** What the creation loop has built once it has visited `instances[..k]`
      without an exception. */
  ghost predicate Visited(instances: seq<Instance>, default: int, clock: nat -> Dates.CivilDateTime,
                          imageIds: nat -> string, k: nat, amiName: Option<string>, rets: seq<int>,
                          requests: seq<Request>, amiList: seq<string>, keys: seq<int>,
                          toTag: map<int, seq<string>>)
  {
    && k <= |instances| && CreatesUpTo(instances, default, k)
    && amiName == NameAt(instances, k)
    && rets == Retentions(instances, default, k)
    && requests == CreationRequests(instances, default, clock, k)
    && amiList == ImageList(imageIds, k)
    && keys == Distinct(rets)
    && toTag == BucketMap(amiList, rets)
  }

  /** A visit that reaches `create_image` extends everything the loop has built. */
  lemma VisitStep(instances: seq<Instance>, default: int, clock: nat -> Dates.CivilDateTime,
                  imageIds: nat -> string, k: nat, rets: seq<int>,
                  requests: seq<Request>, amiList: seq<string>, keys: seq<int>,
                  toTag: map<int, seq<string>>)
    requires k < |instances|
    requires Visited(instances, default, clock, imageIds, k, NameAt(instances, k), rets, requests, amiList, keys, toTag)
    requires InstanceFailure(instances, default, k).None?
    ensures var r := RetentionLookup(instances[k].tags, default).value;
            var id := imageIds(k);
            Visited(instances, default, clock, imageIds, k + 1, NameAfter(instances, k), rets + [r],
                    requests + [CreateImageRequest(instances[k], NameAfter(instances, k).value, clock(k))],
                    amiList + [id], if r in toTag then keys else keys + [r],
                    toTag[r := (if r in toTag then toTag[r] else []) + [id]])
  {
    var r := RetentionLookup(instances[k].tags, default).value;
    CreationStep(instances, default, clock, imageIds, k);
    BucketMapStep(amiList, rets, imageIds(k), r);
    DistinctStep(rets, r);
    assert r in toTag <==> r in rets;
  }

  /** Lines 63-74: one `create_tags` per key of `to_tag`, in key order, stamping
      its bucket with the date `retention_days` after today; `delete_fmt` keeps
      the text of the last bucket visited. */
  method TagBuckets(toTag: map<int, seq<string>>, keys: seq<int>, today: nat -> Dates.CivilDate)
    returns (requests: seq<Request>, deleteFmt: Option<string>, raised: Option<Error>)
    requires forall j :: 0 <= j < |keys| ==> keys[j] in toTag
    ensures var m := TaggedCount(keys, today);
            && requests == BucketRequests(toTag, keys, today, m)
            && raised == (if m < |keys| then Some(OverflowError) else None)
            && (m == |keys| ==> deleteFmt == LastDeleteOn(keys, today))
  {
    requests, deleteFmt, raised := [], None, None;
    for j := 0 to |keys|
      invariant forall i :: 0 <= i < j ==> DeleteOn(today(i), keys[i]).Some?
      invariant requests == BucketRequests(toTag, keys, today, j)
      invariant deleteFmt == if j == 0 then None else DeleteOn(today(j - 1), keys[j - 1])
    {
      var retentionDays := keys[j];
      var deleteDate := Dates.AddDays(today(j), retentionDays);
      if deleteDate.None? {
        raised := Some(OverflowError);
        OverflowIsFirst(keys, today, j);
        return;
      }
      deleteFmt := Some(Dates.FormatMonthDayYear(deleteDate.value));
      assert deleteFmt == DeleteOn(today(j), keys[j]);
      TagStep(toTag, keys, today, j);
      requests := requests + [CreateTags(toTag[retentionDays], ExpiryTags(deleteFmt.value))];
    }
    OverflowIsFirst(keys, today, |keys|);
  }

  lemma TagStep(toTag: map<int, seq<string>>, keys: seq<int>, today: nat -> Dates.CivilDate, j: nat)
    requires j < |keys|
    requires forall i :: 0 <= i < |keys| ==> keys[i] in toTag
    requires forall i :: 0 <= i <= j ==> DeleteOn(today(i), keys[i]).Some?
    ensures BucketRequests(toTag, keys, today, j + 1)
            == BucketRequests(toTag, keys, today, j) + [CreateTags(toTag[keys[j]], ExpiryTags(DeleteOn(today(j), keys[j]).value))]
  {
  }

  lemma OverflowIsFirst(keys: seq<int>, today: nat -> Dates.CivilDate, j: nat)
    requires j <= |keys|
    requires forall i :: 0 <= i < j ==> DeleteOn(today(i), keys[i]).Some?
    requires j < |keys| ==> DeleteOn(today(j), keys[j]).None?
    ensures TaggedCount(keys, today) == j
  {
  }

  /** Lines 78-115: for each image of `amiList`, in order, one
      `describe_snapshots` request, then for each snapshot returned a
      `create_tags` with the leftover `delete_fmt` and a `delete_tags` of the
      discovery tag on every discovered instance. */
  method TagSnapshots(amiList: seq<string>, accountNumber: string, snapshots: nat -> seq<string>,
                      deleteFmt: Option<string>, instanceIds: seq<string>)
    returns (requests: seq<Request>)
    requires amiList != [] ==> deleteFmt.Some?
    ensures requests == SnapshotRequests(amiList, accountNumber, snapshots, deleteFmt, instanceIds, |amiList|)
  {
    requests := [];
    for i := 0 to |amiList|
      invariant requests == SnapshotRequests(amiList, accountNumber, snapshots, deleteFmt, instanceIds, i)
    {
      var ami := amiList[i];
      requests := requests + [DescribeRequest(accountNumber, ami)];
      ghost var described := requests;
      var found := snapshots(i);
      for s := 0 to |found|
        invariant requests == described + SnapshotTagRequests(found, deleteFmt.value, instanceIds, s)
      {
        requests := requests + [CreateTags([found[s]], ExpiryTags(deleteFmt.value))];
        if instanceIds != [] {
          requests := requests + [DeleteTags(instanceIds, [TargetTag.key])];
        }
      }
    }
  }

  /** Lines 14-115 of `lambda_handler`, given the reservations that
      `describe_instances` would have returned. The five-second sleep before
      the snapshot lookups has no effect on the requests and is not modelled. */
  method Backup(reservations: seq<Reservation>, accountNumber: string, retentionDays: int,
                clock: nat -> Dates.CivilDateTime, imageIds: nat -> string,
                today: nat -> Dates.CivilDate, snapshots: nat -> seq<string>)
    returns (outcome: Outcome)
    ensures outcome == Expected(reservations, accountNumber, retentionDays, clock, imageIds, today, snapshots)
  {
    var instances, instanceIds, raised := Discover(reservations);
    if raised.Some? {
      return Outcome([], raised);
    }
    assert instanceIds == IdsOf(instances);
    var created, toTag, keys, amiList, failed := CreateImages(instances, retentionDays, clock, imageIds);
    if failed.Some? {
      return Outcome(created, failed);
    }
    var tagged, deleteFmt, overflow := TagBuckets(toTag, keys, today);
    if overflow.Some? {
      return Outcome(created + tagged, overflow);
    }
    assert amiList != [] ==> amiList[0] == imageIds(0) && keys != [];
    var propagated := TagSnapshots(amiList, accountNumber, snapshots, deleteFmt, instanceIds);
    return Outcome(created + (tagged + propagated), None);
  }

  /** `to_tag[r].append(id)` on a `defaultdict(list)`: a missing key starts as an
      empty list and joins the end of the key order. */
  method Append(toTag: map<int, seq<string>>, keys: seq<int>, r: int, id: string)
    returns (toTag': map<int, seq<string>>, keys': seq<int>)
    ensures toTag' == toTag[r := (if r in toTag then toTag[r] else []) + [id]]
    ensures keys' == if r in toTag then keys else keys + [r]
  {
    toTag', keys' := toTag, keys;
    if r !in toTag' {
      keys' := keys' + [r];
      toTag' := toTag'[r := []];
    }
    toTag' := toTag'[r := toTag'[r] + [id]];
  }

  /** Lines 46-49: rebinds `amiName` to the value of the first `Name` tag, and
      leaves it as it was when there is none. */
  method FindName(tags: seq<Tag>, amiName: Option<string>) returns (name: Option<string>)
    ensures name == match NameLookup(tags) case Some(v) => Some(v) case None => amiName
  {
    name := amiName;
    var i := 0;
    while i < |tags|
      invariant i <= |tags| && name == amiName
      invariant forall j :: 0 <= j < i ==> tags[j].key != "Name"
    {
      if tags[i].key == "Name" {
        name := Some(tags[i].value);
        break;
      }
      i := i + 1;
    }
  }

  /** One more successful visit extends every prefix the creation loop maintains. */
  lemma CreationStep(instances: seq<Instance>, default: int, clock: nat -> Dates.CivilDateTime,
                     imageIds: nat -> string, k: nat)
    requires k < |instances| && CreatesUpTo(instances, default, k)
    requires InstanceFailure(instances, default, k).None?
    ensures CreatesUpTo(instances, default, k + 1)
    ensures Retentions(instances, default, k + 1)
            == Retentions(instances, default, k) + [RetentionLookup(instances[k].tags, default).value]
    ensures CreationRequests(instances, default, clock, k + 1)
            == CreationRequests(instances, default, clock, k)
               + [CreateImageRequest(instances[k], NameAfter(instances, k).value, clock(k))]
    ensures ImageList(imageIds, k + 1) == ImageList(imageIds, k) + [imageIds(k)]
  {
    CreationRequestsStep(instances, default, clock, k);
    ImageListStep(imageIds, k);
  }

  lemma CreationRequestsStep(instances: seq<Instance>, default: int, clock: nat -> Dates.CivilDateTime, k: nat)
    requires CreatesUpTo(instances, default, k + 1)
    ensures CreationRequests(instances, default, clock, k + 1)
            == CreationRequests(instances, default, clock, k)
               + [CreateImageRequest(instances[k], NameAfter(instances, k).value, clock(k))]
  {
    var longer := CreationRequests(instances, default, clock, k + 1);
    var shorter := CreationRequests(instances, default, clock, k);
    var last := CreateImageRequest(instances[k], NameAfter(instances, k).value, clock(k));
    forall i | 0 <= i < k
      ensures longer[i] == shorter[i]
    {
    }
    SeqSnoc(longer, shorter, last);
  }

  /** A sequence one longer than `shorter`, agreeing with it and ending in `last`. */
  lemma SeqSnoc<T>(longer: seq<T>, shorter: seq<T>, last: T)
    requires |longer| == |shorter| + 1 && longer[|shorter|] == last
    requires forall i :: 0 <= i < |shorter| ==> longer[i] == shorter[i]
    ensures longer == shorter + [last]
  {
  }

  lemma ImageListStep(imageIds: nat -> string, k: nat)
    ensures ImageList(imageIds, k + 1) == ImageList(imageIds, k) + [imageIds(k)]
  {
  }

  lemma DistinctStep(s: seq<int>, x: int)
    ensures Distinct(s + [x]) == if x in s then Distinct(s) else Distinct(s) + [x]
  {
    assert (s + [x])[..|s|] == s;
  }

  lemma AllCreated(instances: seq<Instance>, default: int)
    requires CreatesUpTo(instances, default, |instances|)
    ensures CreatedCount(instances, default) == |instances|
  {
  }

  /** An instance that fails right after all earlier ones succeeded is the first failure. */
  lemma FailureIsFirst(instances: seq<Instance>, default: int, k: nat)
    requires k < |instances| && CreatesUpTo(instances, default, k)
    requires InstanceFailure(instances, default, k).Some?
    ensures CreatedCount(instances, default) == k
  {
    var n := CreatedCount(instances, default);
    assert n < |instances| ==> InstanceFailure(instances, default, n).Some?;
  }

  /** Filing one more id: the bucket of its retention grows by that id and
      every other bucket stays as it was. */
  lemma BucketMapStep(ids: seq<string>, rets: seq<int>, id: string, r: int)
    requires |ids| == |rets|
    ensures BucketMap(ids + [id], rets + [r]) ==
            BucketMap(ids, rets)[r := (if r in rets then Bucket(ids, rets, r) else []) + [id]]
  {
    if r !in rets {
      AmiProperties.BucketOfAbsent(ids, rets, r);
    }
    var before, after := BucketMap(ids, rets), BucketMap(ids + [id], rets + [r]);
    assert after.Keys == before.Keys + {r};
    forall x | x in after
      ensures after[x] == before[r := (if r in rets then Bucket(ids, rets, r) else []) + [id]][x]
    {
      AmiProperties.BucketSnoc(ids, rets, id, r, x);
    }
  }
}
