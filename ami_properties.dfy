/** Properties of the handler's specification: what its lookups return, how
    its grouping partitions the created images, and which requests the whole
    pipeline issues. */
module AmiProperties {
  import opened Wrappers
  import opened AmiSpec
  import PyInt
  import Dates

  // ---------------------------------------------------------------- discovery

  lemma {:induction false} FlattenConcat(a: seq<Reservation>, b: seq<Reservation>)
    ensures Flatten(a + b) == Flatten(a) + Flatten(b)
    decreases |b|
  {
    if b == [] {
      assert a + b == a;
    } else {
      var b' := b[..|b| - 1];
      assert (a + b)[..|a + b| - 1] == a + b';
      FlattenConcat(a, b');
    }
  }

  /** The `i`-th instance of the `j`-th reservation comes after the instances of
      all earlier reservations and after its own earlier siblings. */
  lemma FlattenPosition(rs: seq<Reservation>, j: nat, i: nat)
    requires j < |rs| && i < |InstancesOf(rs[j])|
    ensures |Flatten(rs[..j])| + i < |Flatten(rs)|
    ensures Flatten(rs)[|Flatten(rs[..j])| + i] == InstancesOf(rs[j])[i]
  {
    assert rs == rs[..j + 1] + rs[j + 1..];
    assert rs[..j + 1][..j] == rs[..j];
    FlattenConcat(rs[..j + 1], rs[j + 1..]);
  }

  // ---------------------------------------------------------------- retention

  lemma {:induction false} RetentionValuesOk(tags: seq<Tag>)
    requires forall i :: 0 <= i < |tags| ==> !Unparsable(tags[i])
    ensures match FirstWithKey(tags, "Retention")
            case None => RetentionValues(tags) == Ok([])
            case Some(i) => RetentionValues(tags).Ok? && |RetentionValues(tags).value| > 0
                            && Some(RetentionValues(tags).value[0]) == PyInt.ParseInt(tags[i].value)
  {
    if tags != [] {
      var rest := tags[1..];
      forall i | 0 <= i < |rest| ensures !Unparsable(rest[i]) {
        assert rest[i] == tags[i + 1];
      }
      RetentionValuesOk(rest);
      if tags[0].key == "Retention" {
        assert !Unparsable(tags[0]);
      }
    }
  }

  lemma {:induction false} RetentionValuesRaise(tags: seq<Tag>, i: nat)
    requires i < |tags| && Unparsable(tags[i])
    requires forall j :: 0 <= j < i ==> !Unparsable(tags[j])
    ensures RetentionValues(tags) == Err(tags[i].value)
  {
    if i > 0 {
      assert forall j :: 1 <= j < |tags| ==> tags[1..][j - 1] == tags[j];
      RetentionValuesRaise(tags[1..], i - 1);
    }
  }

  /** With every `Retention` value an integer, the first `Retention` tag decides. */
  lemma RetentionFromFirstTag(tags: seq<Tag>, default: int, i: nat)
    requires forall j :: 0 <= j < |tags| ==> !Unparsable(tags[j])
    requires FirstWithKey(tags, "Retention") == Some(i)
    ensures RetentionLookup(Some(tags), default).Ok?
    ensures Some(RetentionLookup(Some(tags), default).value) == PyInt.ParseInt(tags[i].value)
  {
    RetentionValuesOk(tags);
  }

  /** Without a `Retention` tag the configured default applies. */
  lemma RetentionDefault(tags: seq<Tag>, default: int)
    requires forall j :: 0 <= j < |tags| ==> tags[j].key != "Retention"
    ensures RetentionLookup(Some(tags), default) == Ok(default)
  {
    RetentionValuesOk(tags);
  }

  /** A `Retention` value `int` refuses raises `ValueError`, wherever it stands,
      even after a valid one; the error names the first refused value. */
  lemma RetentionRaises(tags: seq<Tag>, default: int, i: nat)
    requires i < |tags| && Unparsable(tags[i])
    ensures exists j :: 0 <= j <= i && Unparsable(tags[j])
                        && (forall k :: 0 <= k < j ==> !Unparsable(tags[k]))
                        && RetentionLookup(Some(tags), default) == Err(ValueError(tags[j].value))
  {
    var j := FirstUnparsable(tags, i);
    RetentionValuesRaise(tags, j);
  }

  function FirstUnparsable(tags: seq<Tag>, i: nat): (j: nat)
    requires i < |tags| && Unparsable(tags[i])
    ensures j <= i && Unparsable(tags[j]) && forall k :: 0 <= k < j ==> !Unparsable(tags[k])
  {
    if i == 0 || forall k :: 0 <= k < i ==> !Unparsable(tags[k]) then i
    else
      var k :| 0 <= k < i && Unparsable(tags[k]);
      FirstUnparsable(tags, k)
  }

  // ---------------------------------------------------------------- the leaking name

  /** `amiName` holds the `Name` of the latest instance visited that has one. */
  lemma {:induction false} NameAtLatest(instances: seq<Instance>, k: nat, j: nat)
    requires j < k <= |instances|
    requires NameLookup(TagsOf(instances[j])).Some?
    requires forall i :: j < i < k ==> NameLookup(TagsOf(instances[i])).None?
    ensures NameAt(instances, k) == NameLookup(TagsOf(instances[j]))
  {
    if k - 1 > j {
      NameAtLatest(instances, k - 1, j);
    }
  }

  /** `amiName` is unbound exactly while no visited instance has had a `Name` tag. */
  lemma {:induction false} NameAtUnbound(instances: seq<Instance>, k: nat)
    requires k <= |instances|
    ensures NameAt(instances, k).None? <==> forall j :: 0 <= j < k ==> NameLookup(TagsOf(instances[j])).None?
  {
    if k > 0 {
      NameAtUnbound(instances, k - 1);
    }
  }

  // ---------------------------------------------------------------- key order

  /** The position of the first occurrence of `x` in `s`. */
  function FirstIndex(s: seq<int>, x: int): (i: nat)
    requires x in s
    ensures i < |s| && s[i] == x
    ensures forall j :: 0 <= j < i ==> s[j] != x
  {
    if s[0] == x then 0
    else
      var i := FirstIndex(s[1..], x) + 1;
      assert forall j :: 1 <= j < |s| ==> s[j] == s[1..][j - 1];
      i
  }

  lemma FirstIndexExtend(s: seq<int>, y: int, x: int)
    requires x in s
    ensures FirstIndex(s + [y], x) == FirstIndex(s, x)
  {
    assert (s + [y])[FirstIndex(s, x)] == x;
  }

  /** The keys of `to_tag` come in the order their retention was first seen. */
  lemma {:induction false} DistinctFirstSeen(s: seq<int>, i: nat, j: nat)
    requires i < j < |Distinct(s)|
    ensures Distinct(s)[i] in s && Distinct(s)[j] in s
    ensures FirstIndex(s, Distinct(s)[i]) < FirstIndex(s, Distinct(s)[j])
  {
    var p, y := s[..|s| - 1], s[|s| - 1];
    assert s == p + [y];
    var d := Distinct(p);
    assert Distinct(s)[i] in Distinct(s) && Distinct(s)[j] in Distinct(s);
    if j < |d| {
      assert Distinct(s)[i] == d[i] && Distinct(s)[j] == d[j];
      assert d[i] in d && d[j] in d;
      DistinctFirstSeen(p, i, j);
      FirstIndexExtend(p, y, d[i]);
      FirstIndexExtend(p, y, d[j]);
    } else {
      assert y !in p && Distinct(s)[j] == y;
      assert d[i] in d;
      FirstIndexExtend(p, y, d[i]);
    }
  }

  // ---------------------------------------------------------------- buckets

  lemma {:induction false} BucketOfAbsent(ids: seq<string>, rets: seq<int>, r: int)
    requires |ids| == |rets| && r !in rets
    ensures Bucket(ids, rets, r) == []
    decreases |ids|
  {
    if ids != [] {
      assert rets == rets[..|rets| - 1] + [rets[|rets| - 1]];
      BucketOfAbsent(ids[..|ids| - 1], rets[..|rets| - 1], r);
    }
  }

  /** An id is in the bucket of `r` exactly when it was created with retention `r`. */
  lemma {:induction false} BucketMember(ids: seq<string>, rets: seq<int>, r: int, x: string)
    requires |ids| == |rets|
    ensures x in Bucket(ids, rets, r) <==> exists k :: 0 <= k < |ids| && ids[k] == x && rets[k] == r
    decreases |ids|
  {
    if ids != [] {
      var ids', rets' := ids[..|ids| - 1], rets[..|rets| - 1];
      BucketMember(ids', rets', r, x);
      assert forall k :: 0 <= k < |ids'| ==> ids'[k] == ids[k] && rets'[k] == rets[k];
    }
  }

  /** With distinct image ids, two buckets of different retentions share no id. */
  lemma BucketsDisjoint(ids: seq<string>, rets: seq<int>, r1: int, r2: int, x: string)
    requires |ids| == |rets| && r1 != r2
    requires forall k, k' :: 0 <= k < k' < |ids| ==> ids[k] != ids[k']
    ensures !(x in Bucket(ids, rets, r1) && x in Bucket(ids, rets, r2))
  {
    BucketMember(ids, rets, r1, x);
    BucketMember(ids, rets, r2, x);
  }

  /** The buckets in key order, one after another. */
  function Gather(ids: seq<string>, rets: seq<int>, keys: seq<int>): seq<string>
    requires |ids| == |rets|
  {
    if keys == [] then [] else Gather(ids, rets, keys[..|keys| - 1]) + Bucket(ids, rets, keys[|keys| - 1])
  }

  lemma BucketSnoc(ids: seq<string>, rets: seq<int>, x: string, r: int, z: int)
    requires |ids| == |rets|
    ensures Bucket(ids + [x], rets + [r], z) == Bucket(ids, rets, z) + (if r == z then [x] else [])
  {
    var ids', rets' := ids + [x], rets + [r];
    assert ids'[..|ids'| - 1] == ids && rets'[..|rets'| - 1] == rets;
  }

  lemma GatherSnoc(ids: seq<string>, rets: seq<int>, keys: seq<int>, z: int)
    requires |ids| == |rets|
    ensures Gather(ids, rets, keys + [z]) == Gather(ids, rets, keys) + Bucket(ids, rets, z)
  {
    assert (keys + [z])[..|keys|] == keys;
  }

  lemma GatherArith(after: seq<string>, before: seq<string>, bucket: seq<string>, x: string, inInit: bool, isLast: bool)
    requires multiset(after) == multiset(before) + (if inInit then multiset{x} else multiset{})
    requires !(inInit && isLast)
    ensures multiset(after + (bucket + (if isLast then [x] else [])))
            == multiset(before + bucket) + (if inInit || isLast then multiset{x} else multiset{})
  {
  }

  lemma {:induction false} GatherStep(ids: seq<string>, rets: seq<int>, x: string, r: int, keys: seq<int>)
    requires |ids| == |rets|
    requires forall i, j :: 0 <= i < j < |keys| ==> keys[i] != keys[j]
    ensures multiset(Gather(ids + [x], rets + [r], keys))
            == multiset(Gather(ids, rets, keys)) + (if r in keys then multiset{x} else multiset{})
    decreases |keys|
  {
    if keys != [] {
      var init, z := keys[..|keys| - 1], keys[|keys| - 1];
      assert keys == init + [z];
      assert forall i :: 0 <= i < |init| ==> init[i] == keys[i];
      GatherStep(ids, rets, x, r, init);
      GatherSnoc(ids + [x], rets + [r], init, z);
      GatherSnoc(ids, rets, init, z);
      BucketSnoc(ids, rets, x, r, z);
      assert r in keys <==> r in init || r == z;
      assert r == z ==> r !in init;
      GatherArith(Gather(ids + [x], rets + [r], init), Gather(ids, rets, init), Bucket(ids, rets, z), x,
                  r in init, r == z);
    }
  }

  /** The buckets partition `amiList`: every created id is in exactly as many
      buckets as it was created times, so in exactly one when ids are distinct. */
  lemma {:induction false} BucketsPartition(ids: seq<string>, rets: seq<int>)
    requires |ids| == |rets|
    ensures multiset(Gather(ids, rets, Distinct(rets))) == multiset(ids)
    decreases |ids|
  {
    if ids != [] {
      var ids', x := ids[..|ids| - 1], ids[|ids| - 1];
      var rets', r := rets[..|rets| - 1], rets[|rets| - 1];
      assert ids == ids' + [x] && rets == rets' + [r];
      BucketsPartition(ids', rets');
      var d := Distinct(rets');
      var g := Gather(ids, rets, d);
      GatherStep(ids', rets', x, r, d);
      assert multiset(ids) == multiset(ids') + multiset{x};
      assert rets[..|rets| - 1] == rets' && rets[|rets| - 1] == r;
      if r in rets' {
        assert r in d;
        assert Distinct(rets) == d;
        assert multiset(g) == multiset(ids') + multiset{x};
      } else {
        assert r !in d;
        assert Distinct(rets) == d + [r];
        GatherSnoc(ids, rets, d, r);
        BucketOfAbsent(ids', rets', r);
        BucketSnoc(ids', rets', x, r, r);
        assert Bucket(ids, rets, r) == [x];
        assert multiset(g) == multiset(ids');
        assert multiset(g + [x]) == multiset(g) + multiset{x};
      }
    }
  }

  // ---------------------------------------------------------------- expiration dates

  /** The `DeleteOn` text names the date exactly `days` after `today`; there is
      none (Python raises `OverflowError`) when that date is outside the calendar. */
  lemma DeleteOnMeaning(today: Dates.CivilDate, days: int)
    ensures DeleteOn(today, days).Some? <==> 1 <= Dates.Ordinal(today) + days <= Dates.MaxOrdinal
    ensures DeleteOn(today, days).Some? ==>
      && Dates.ParseMonthDayYear(DeleteOn(today, days).value).Some?
      && Dates.ValidDate(Dates.ParseMonthDayYear(DeleteOn(today, days).value).value)
      && Dates.Ordinal(Dates.ParseMonthDayYear(DeleteOn(today, days).value).value) == Dates.Ordinal(today) + days
    ensures DeleteOn(today, days).Some? ==>
      forall e: Dates.CivilDate :: Dates.Ordinal(e) == Dates.Ordinal(today) + days ==>
        Dates.ParseMonthDayYear(DeleteOn(today, days).value) == Some(e)
  {
    var d := Dates.AddDays(today, days);
    if d.Some? {
      Dates.ParseFormatMonthDayYear(d.value);
      forall e: Dates.CivilDate | Dates.Ordinal(e) == Dates.Ordinal(today) + days
        ensures Dates.ParseMonthDayYear(DeleteOn(today, days).value) == Some(e)
      {
        Dates.OrdinalInjective(d.value, e);
      }
    }
  }

  // ---------------------------------------------------------------- snapshot propagation

  function TotalSnapshots(snapshots: nat -> seq<string>, n: nat): nat {
    if n == 0 then 0 else TotalSnapshots(snapshots, n - 1) + |snapshots(n - 1)|
  }

  datatype Kind = ImageKind | TagKind | DescribeKind | UntagKind

  function KindOf(q: Request): Kind {
    match q
    case CreateImage(_, _, _, _, _) => ImageKind
    case CreateTags(_, _) => TagKind
    case DescribeSnapshots(_, _, _, _) => DescribeKind
    case DeleteTags(_, _) => UntagKind
  }

  /** The number of requests of one kind in a trace. */
  function Count(trace: seq<Request>, k: Kind): nat {
    if trace == [] then 0 else Count(trace[..|trace| - 1], k) + (if KindOf(trace[|trace| - 1]) == k then 1 else 0)
  }

  lemma {:induction false} CountConcat(a: seq<Request>, b: seq<Request>, k: Kind)
    ensures Count(a + b, k) == Count(a, k) + Count(b, k)
    decreases |b|
  {
    if b == [] {
      assert a + b == a;
    } else {
      var b' := b[..|b| - 1];
      assert (a + b)[..|a + b| - 1] == a + b';
      CountConcat(a, b', k);
    }
  }

  lemma CountOne(q: Request, k: Kind)
    ensures Count([q], k) == if KindOf(q) == k then 1 else 0
  {
    assert [q][..0] == [];
  }

  /** The `describe_snapshots` requests of a trace, in order. */
  function Lookups(trace: seq<Request>): seq<Request> {
    if trace == [] then []
    else Lookups(trace[..|trace| - 1])
         + (if trace[|trace| - 1].DescribeSnapshots? then [trace[|trace| - 1]] else [])
  }

  lemma {:induction false} FiltersConcat(a: seq<Request>, b: seq<Request>)
    ensures Lookups(a + b) == Lookups(a) + Lookups(b)
    decreases |b|
  {
    if b == [] {
      assert a + b == a;
    } else {
      var b' := b[..|b| - 1];
      assert (a + b)[..|a + b| - 1] == a + b';
      FiltersConcat(a, b');
    }
  }

  /** For one image: a tag request per snapshot and, when instances were
      found, an untag request per snapshot; nothing else. */
  lemma {:induction false} SnapshotTagCounts(snaps: seq<string>, deleteFmt: string, instanceIds: seq<string>, n: nat, k: Kind)
    requires n <= |snaps|
    ensures Count(SnapshotTagRequests(snaps, deleteFmt, instanceIds, n), k)
            == if k == TagKind || (k == UntagKind && instanceIds != []) then n else 0
  {
    if n > 0 {
      var prev := SnapshotTagRequests(snaps, deleteFmt, instanceIds, n - 1);
      var tag := [CreateTags([snaps[n - 1]], ExpiryTags(deleteFmt))];
      var untag := UntagRequests(instanceIds);
      assert SnapshotTagRequests(snaps, deleteFmt, instanceIds, n) == prev + tag + untag;
      SnapshotTagCounts(snaps, deleteFmt, instanceIds, n - 1, k);
      CountConcat(prev + tag, untag, k);
      CountConcat(prev, tag, k);
      CountOne(tag[0], k);
      assert Count(tag, k) == if k == TagKind then 1 else 0;
      if instanceIds != [] {
        CountOne(untag[0], k);
        assert Count(untag, k) == if k == UntagKind then 1 else 0;
      } else {
        assert Count(untag, k) == 0;
      }
      assert Count(prev + tag + untag, k) == Count(prev, k) + Count(tag, k) + Count(untag, k);
    } else {
      assert SnapshotTagRequests(snaps, deleteFmt, instanceIds, 0) == [];
    }
  }

  /** Tagging the snapshots of one image looks nothing up. */
  lemma {:induction false} SnapshotTagFilters(snaps: seq<string>, deleteFmt: string, instanceIds: seq<string>, n: nat)
    requires n <= |snaps|
    ensures Lookups(SnapshotTagRequests(snaps, deleteFmt, instanceIds, n)) == []
  {
    if n > 0 {
      var prev := SnapshotTagRequests(snaps, deleteFmt, instanceIds, n - 1);
      var tag := [CreateTags([snaps[n - 1]], ExpiryTags(deleteFmt))];
      var untag := UntagRequests(instanceIds);
      assert SnapshotTagRequests(snaps, deleteFmt, instanceIds, n) == prev + tag + untag;
      SnapshotTagFilters(snaps, deleteFmt, instanceIds, n - 1);
      FiltersConcat(prev + tag, untag);
      FiltersConcat(prev, tag);
      LookupsOne(tag[0]);
      if instanceIds != [] {
        LookupsOne(untag[0]);
      } else {
        assert Lookups(untag) == [];
      }
    } else {
      assert SnapshotTagRequests(snaps, deleteFmt, instanceIds, 0) == [];
    }
  }

  /** A single request that is not a lookup contributes none. */
  lemma LookupsOne(q: Request)
    requires !q.DescribeSnapshots?
    ensures Lookups([q]) == []
  {
    assert [q][..0] == [];
  }

  /** One lookup per image of `amiList`, one tag request per snapshot found,
      and as many untag requests when instances were found, none otherwise. */
  lemma {:induction false} SnapshotCounts(amiList: seq<string>, accountNumber: string, snapshots: nat -> seq<string>,
                                          deleteFmt: Option<string>, instanceIds: seq<string>, n: nat, k: Kind)
    requires n <= |amiList| && (n > 0 ==> deleteFmt.Some?)
    ensures Count(SnapshotRequests(amiList, accountNumber, snapshots, deleteFmt, instanceIds, n), k)
            == SnapshotCount(snapshots, instanceIds, n, k)
  {
    if n > 0 {
      SnapshotCounts(amiList, accountNumber, snapshots, deleteFmt, instanceIds, n - 1, k);
      SnapshotCountsStep(amiList, accountNumber, snapshots, deleteFmt, instanceIds, n, k);
    } else {
      assert SnapshotRequests(amiList, accountNumber, snapshots, deleteFmt, instanceIds, 0) == [];
    }
  }

  /** How many requests of kind `k` the snapshot loop issues for `n` images. */
  function SnapshotCount(snapshots: nat -> seq<string>, instanceIds: seq<string>, n: nat, k: Kind): nat {
    match k
    case ImageKind => 0
    case DescribeKind => n
    case TagKind => TotalSnapshots(snapshots, n)
    case UntagKind => if instanceIds != [] then TotalSnapshots(snapshots, n) else 0
  }

  lemma SnapshotCountsStep(amiList: seq<string>, accountNumber: string, snapshots: nat -> seq<string>,
                           deleteFmt: Option<string>, instanceIds: seq<string>, n: nat, k: Kind)
    requires 0 < n <= |amiList| && deleteFmt.Some?
    requires Count(SnapshotRequests(amiList, accountNumber, snapshots, deleteFmt, instanceIds, n - 1), k)
             == SnapshotCount(snapshots, instanceIds, n - 1, k)
    ensures Count(SnapshotRequests(amiList, accountNumber, snapshots, deleteFmt, instanceIds, n), k)
            == SnapshotCount(snapshots, instanceIds, n, k)
  {
    var prev := SnapshotRequests(amiList, accountNumber, snapshots, deleteFmt, instanceIds, n - 1);
    var q := DescribeRequest(accountNumber, amiList[n - 1]);
    var tags := SnapshotTagRequests(snapshots(n - 1), deleteFmt.value, instanceIds, |snapshots(n - 1)|);
    assert SnapshotRequests(amiList, accountNumber, snapshots, deleteFmt, instanceIds, n) == prev + [q] + tags;
    SnapshotTagCounts(snapshots(n - 1), deleteFmt.value, instanceIds, |snapshots(n - 1)|, k);
    CountConcat(prev + [q], tags, k);
    CountConcat(prev, [q], k);
    CountOne(q, k);
  }

  /** The lookups are for the images of `amiList` in order, each filtered by `*{ami}*`. */
  lemma {:induction false} SnapshotLookups(amiList: seq<string>, accountNumber: string, snapshots: nat -> seq<string>,
                                           deleteFmt: Option<string>, instanceIds: seq<string>, n: nat)
    requires n <= |amiList| && (n > 0 ==> deleteFmt.Some?)
    ensures var lookups := Lookups(SnapshotRequests(amiList, accountNumber, snapshots, deleteFmt, instanceIds, n));
            |lookups| == n && forall i :: 0 <= i < n ==> lookups[i] == DescribeRequest(accountNumber, amiList[i])
  {
    if n > 0 {
      SnapshotLookups(amiList, accountNumber, snapshots, deleteFmt, instanceIds, n - 1);
      SnapshotLookupsStep(amiList, accountNumber, snapshots, deleteFmt, instanceIds, n);
      LookupsExtend(Lookups(SnapshotRequests(amiList, accountNumber, snapshots, deleteFmt, instanceIds, n - 1)),
                    Lookups(SnapshotRequests(amiList, accountNumber, snapshots, deleteFmt, instanceIds, n)),
                    amiList, accountNumber, n);
    } else {
      assert SnapshotRequests(amiList, accountNumber, snapshots, deleteFmt, instanceIds, 0) == [];
    }
  }

  lemma LookupsExtend(prev: seq<Request>, cur: seq<Request>, amiList: seq<string>, accountNumber: string, n: nat)
    requires 0 < n <= |amiList|
    requires |prev| == n - 1 && forall i :: 0 <= i < n - 1 ==> prev[i] == DescribeRequest(accountNumber, amiList[i])
    requires cur == prev + [DescribeRequest(accountNumber, amiList[n - 1])]
    ensures |cur| == n && forall i :: 0 <= i < n ==> cur[i] == DescribeRequest(accountNumber, amiList[i])
  {
  }

  lemma SnapshotLookupsStep(amiList: seq<string>, accountNumber: string, snapshots: nat -> seq<string>,
                            deleteFmt: Option<string>, instanceIds: seq<string>, n: nat)
    requires 0 < n <= |amiList| && deleteFmt.Some?
    ensures Lookups(SnapshotRequests(amiList, accountNumber, snapshots, deleteFmt, instanceIds, n))
            == Lookups(SnapshotRequests(amiList, accountNumber, snapshots, deleteFmt, instanceIds, n - 1))
               + [DescribeRequest(accountNumber, amiList[n - 1])]
  {
    var prev := SnapshotRequests(amiList, accountNumber, snapshots, deleteFmt, instanceIds, n - 1);
    var q := DescribeRequest(accountNumber, amiList[n - 1]);
    var tags := SnapshotTagRequests(snapshots(n - 1), deleteFmt.value, instanceIds, |snapshots(n - 1)|);
    assert SnapshotRequests(amiList, accountNumber, snapshots, deleteFmt, instanceIds, n) == prev + [q] + tags;
    SnapshotTagFilters(snapshots(n - 1), deleteFmt.value, instanceIds, |snapshots(n - 1)|);
    FiltersStep(prev, q, tags);
  }

  lemma FiltersStep(prev: seq<Request>, q: Request, rest: seq<Request>)
    requires Lookups(rest) == []
    ensures Lookups(prev + [q] + rest)
            == Lookups(prev) + (if q.DescribeSnapshots? then [q] else [])
  {
    FiltersConcat(prev + [q], rest);
    FiltersConcat(prev, [q]);
    assert [q][..0] == [];
  }

  /** Every snapshot is tagged with the same `DeleteOn` text, whatever image it backs. */
  lemma {:induction false} SnapshotTagsShareDate(amiList: seq<string>, accountNumber: string, snapshots: nat -> seq<string>,
                                                 deleteFmt: Option<string>, instanceIds: seq<string>, n: nat, q: Request)
    requires n <= |amiList| && (n > 0 ==> deleteFmt.Some?)
    requires q in SnapshotRequests(amiList, accountNumber, snapshots, deleteFmt, instanceIds, n)
    ensures q.CreateTags? ==> q.tags == ExpiryTags(deleteFmt.value) && |q.resources| == 1
    ensures q.DeleteTags? ==> q.resources == instanceIds && q.tagKeys == ["AMI"]
  {
    var prev := SnapshotRequests(amiList, accountNumber, snapshots, deleteFmt, instanceIds, n - 1);
    var tags := SnapshotTagRequests(snapshots(n - 1), deleteFmt.value, instanceIds, |snapshots(n - 1)|);
    if q in prev {
      SnapshotTagsShareDate(amiList, accountNumber, snapshots, deleteFmt, instanceIds, n - 1, q);
    } else if q in tags {
      TagRequestsShape(snapshots(n - 1), deleteFmt.value, instanceIds, |snapshots(n - 1)|, q);
    }
  }

  /** The `create_tags` requests of a trace, in order. */
  function TagRequests(trace: seq<Request>): seq<Request> {
    if trace == [] then []
    else TagRequests(trace[..|trace| - 1])
         + (if trace[|trace| - 1].CreateTags? then [trace[|trace| - 1]] else [])
  }

  lemma {:induction false} TagRequestsConcat(a: seq<Request>, b: seq<Request>)
    ensures TagRequests(a + b) == TagRequests(a) + TagRequests(b)
    decreases |b|
  {
    if b == [] {
      assert a + b == a;
    } else {
      var b' := b[..|b| - 1];
      assert (a + b)[..|a + b| - 1] == a + b';
      TagRequestsConcat(a, b');
    }
  }

  lemma TagRequestsOne(q: Request)
    ensures TagRequests([q]) == if q.CreateTags? then [q] else []
  {
    assert [q][..0] == [];
  }

  /** Every snapshot found for the first `n` images, in the order they were found. */
  function AllSnapshots(snapshots: nat -> seq<string>, n: nat): seq<string> {
    if n == 0 then [] else AllSnapshots(snapshots, n - 1) + snapshots(n - 1)
  }

  /** One `create_tags` per snapshot of `snaps`, each on that snapshot alone,
      with the expiry tags for `deleteFmt`. */
  function ExpiryRequests(snaps: seq<string>, deleteFmt: string): seq<Request> {
    seq(|snaps|, i requires 0 <= i < |snaps| => CreateTags([snaps[i]], ExpiryTags(deleteFmt)))
  }

  lemma ExpiryRequestsConcat(a: seq<string>, b: seq<string>, deleteFmt: string)
    ensures ExpiryRequests(a + b, deleteFmt) == ExpiryRequests(a, deleteFmt) + ExpiryRequests(b, deleteFmt)
  {
    var lhs, rhs := ExpiryRequests(a + b, deleteFmt), ExpiryRequests(a, deleteFmt) + ExpiryRequests(b, deleteFmt);
    forall i | 0 <= i < |lhs| ensures lhs[i] == rhs[i] {
      if i < |a| {
        assert (a + b)[i] == a[i];
      } else {
        assert (a + b)[i] == b[i - |a|];
      }
    }
  }

  /** For one image, the `create_tags` requests name its first `n` snapshots,
      one each, in order. */
  lemma {:induction false} SnapshotTagTargets(snaps: seq<string>, deleteFmt: string, instanceIds: seq<string>, n: nat)
    requires n <= |snaps|
    ensures TagRequests(SnapshotTagRequests(snaps, deleteFmt, instanceIds, n)) == ExpiryRequests(snaps[..n], deleteFmt)
  {
    if n > 0 {
      var prev := SnapshotTagRequests(snaps, deleteFmt, instanceIds, n - 1);
      var q := CreateTags([snaps[n - 1]], ExpiryTags(deleteFmt));
      var untag := UntagRequests(instanceIds);
      assert SnapshotTagRequests(snaps, deleteFmt, instanceIds, n) == prev + [q] + untag;
      SnapshotTagTargets(snaps, deleteFmt, instanceIds, n - 1);
      TagRequestsStep(prev, q, untag);
      assert snaps[..n] == snaps[..n - 1] + [snaps[n - 1]];
      ExpiryRequestsSnoc(snaps[..n - 1], snaps[n - 1], deleteFmt);
    } else {
      assert SnapshotTagRequests(snaps, deleteFmt, instanceIds, 0) == [];
    }
  }

  /** A tag request followed by at most one request of another kind. */
  lemma TagRequestsStep(prev: seq<Request>, q: Request, untag: seq<Request>)
    requires q.CreateTags? && (untag == [] || (|untag| == 1 && !untag[0].CreateTags?))
    ensures TagRequests(prev + [q] + untag) == TagRequests(prev) + [q]
  {
    TagRequestsConcat(prev, [q]);
    TagRequestsOne(q);
    var init := prev + [q];
    assert TagRequests(init) == TagRequests(prev) + [q];
    if untag == [] {
      assert init + untag == init;
    } else {
      assert untag == [untag[0]];
      TagRequestsConcat(init, untag);
      TagRequestsOne(untag[0]);
      assert TagRequests(untag) == [];
    }
  }

  /** A request that is not a tag request, between two traces. */
  lemma TagRequestsSkip(prev: seq<Request>, q: Request, rest: seq<Request>)
    requires !q.CreateTags?
    ensures TagRequests(prev + [q] + rest) == TagRequests(prev) + TagRequests(rest)
  {
    TagRequestsConcat(prev, [q]);
    TagRequestsOne(q);
    var init := prev + [q];
    assert TagRequests(init) == TagRequests(prev);
    TagRequestsConcat(init, rest);
  }

  lemma ExpiryRequestsSnoc(snaps: seq<string>, x: string, deleteFmt: string)
    ensures ExpiryRequests(snaps + [x], deleteFmt) == ExpiryRequests(snaps, deleteFmt) + [CreateTags([x], ExpiryTags(deleteFmt))]
  {
    ExpiryRequestsConcat(snaps, [x], deleteFmt);
  }

  /** The `create_tags` requests of the snapshot loop are exactly one per
      snapshot found, in order, each on that snapshot alone and carrying the
      leftover `delete_fmt`. */
  lemma {:induction false} SnapshotTagsExact(amiList: seq<string>, accountNumber: string, snapshots: nat -> seq<string>,
                                             deleteFmt: Option<string>, instanceIds: seq<string>, n: nat)
    requires n <= |amiList| && (n > 0 ==> deleteFmt.Some?)
    ensures TagRequests(SnapshotRequests(amiList, accountNumber, snapshots, deleteFmt, instanceIds, n))
            == if n == 0 then [] else ExpiryRequests(AllSnapshots(snapshots, n), deleteFmt.value)
  {
    if n > 0 {
      var d := deleteFmt.value;
      var all := AllSnapshots(snapshots, n - 1);
      SnapshotTagsExact(amiList, accountNumber, snapshots, deleteFmt, instanceIds, n - 1);
      SnapshotTagsStep(amiList, accountNumber, snapshots, deleteFmt, instanceIds, n);
      ExpiryRequestsConcat(all, snapshots(n - 1), d);
      assert AllSnapshots(snapshots, n) == all + snapshots(n - 1);
      if n == 1 {
        assert all == [];
        assert ExpiryRequests(all, d) == [];
      }
    } else {
      assert SnapshotRequests(amiList, accountNumber, snapshots, deleteFmt, instanceIds, 0) == [];
    }
  }

  /** The tag requests of one more image are those for its snapshots. */
  lemma SnapshotTagsStep(amiList: seq<string>, accountNumber: string, snapshots: nat -> seq<string>,
                         deleteFmt: Option<string>, instanceIds: seq<string>, n: nat)
    requires 0 < n <= |amiList| && deleteFmt.Some?
    ensures TagRequests(SnapshotRequests(amiList, accountNumber, snapshots, deleteFmt, instanceIds, n))
            == TagRequests(SnapshotRequests(amiList, accountNumber, snapshots, deleteFmt, instanceIds, n - 1))
               + ExpiryRequests(snapshots(n - 1), deleteFmt.value)
  {
    var prev := SnapshotRequests(amiList, accountNumber, snapshots, deleteFmt, instanceIds, n - 1);
    var q := DescribeRequest(accountNumber, amiList[n - 1]);
    var snaps := snapshots(n - 1);
    var tags := SnapshotTagRequests(snaps, deleteFmt.value, instanceIds, |snaps|);
    assert SnapshotRequests(amiList, accountNumber, snapshots, deleteFmt, instanceIds, n) == prev + [q] + tags;
    TagRequestsSkip(prev, q, tags);
    SnapshotTagTargets(snaps, deleteFmt.value, instanceIds, |snaps|);
    assert snaps[..|snaps|] == snaps;
  }

  /** The `j`-th bucket request tags exactly the images filed under the `j`-th
      retention, with the date `days` after the `j`-th reading of `today`. */
  lemma BucketTargets(amiList: seq<string>, rets: seq<int>, today: nat -> Dates.CivilDate, m: nat)
    requires |amiList| == |rets| && m <= TaggedCount(Distinct(rets), today)
    ensures var keys := Distinct(rets);
            var tagged := BucketRequests(BucketMap(amiList, rets), keys, today, m);
            && |tagged| == m
            && forall j :: 0 <= j < m ==>
                 tagged[j] == CreateTags(Bucket(amiList, rets, keys[j]), ExpiryTags(DeleteOn(today(j), keys[j]).value))
  {
    var keys := Distinct(rets);
    var tagged := BucketRequests(BucketMap(amiList, rets), keys, today, m);
    forall j | 0 <= j < m
      ensures tagged[j] == CreateTags(Bucket(amiList, rets, keys[j]), ExpiryTags(DeleteOn(today(j), keys[j]).value))
    {
      assert keys[j] in rets;
      assert BucketMap(amiList, rets)[keys[j]] == Bucket(amiList, rets, keys[j]);
    }
  }

  lemma {:induction false} TagRequestsShape(snaps: seq<string>, deleteFmt: string, instanceIds: seq<string>, n: nat, q: Request)
    requires n <= |snaps|
    requires q in SnapshotTagRequests(snaps, deleteFmt, instanceIds, n)
    ensures q.CreateTags? ==> q.tags == ExpiryTags(deleteFmt) && |q.resources| == 1
    ensures q.DeleteTags? ==> q.resources == instanceIds && q.tagKeys == ["AMI"]
    ensures !q.CreateImage? && !q.DescribeSnapshots?
  {
    if q in SnapshotTagRequests(snaps, deleteFmt, instanceIds, n - 1) {
      TagRequestsShape(snaps, deleteFmt, instanceIds, n - 1, q);
    }
  }

  /** A trace of requests all of one kind counts only that kind. */
  lemma {:induction false} CountUniform(trace: seq<Request>, kind: Kind, k: Kind)
    requires forall i :: 0 <= i < |trace| ==> KindOf(trace[i]) == kind
    ensures Count(trace, k) == if k == kind then |trace| else 0
  {
    if trace != [] {
      var init := trace[..|trace| - 1];
      assert forall i :: 0 <= i < |init| ==> init[i] == trace[i];
      CountUniform(init, kind, k);
    }
  }

  lemma {:induction false} FiltersNone(trace: seq<Request>)
    requires forall i :: 0 <= i < |trace| ==> !trace[i].DescribeSnapshots?
    ensures Lookups(trace) == []
  {
    if trace != [] {
      var init := trace[..|trace| - 1];
      assert forall i :: 0 <= i < |init| ==> init[i] == trace[i];
      FiltersNone(init);
    }
  }

  // ---------------------------------------------------------------- the whole handler

  /** The `create_image` request of one visit: it never reboots the instance
      and is not a dry run; its name is `amiName`, the instance id and a stamp,
      its description names the instance and carries the same stamp, and that
      stamp reads back as the instant the clock returned. */
  lemma ImageRequestText(instance: Instance, amiName: string, now: Dates.CivilDateTime)
    ensures var q := CreateImageRequest(instance, amiName, now);
            && q.CreateImage? && q.instanceId == instance.instanceId && q.noReboot && !q.dryRun
            && |q.name| == |amiName| + |instance.instanceId| + 21
            && |q.description| == 31 + |instance.instanceId| + 4 + 19
            && q.name[..|q.name| - 19] == amiName + " " + instance.instanceId + " "
            && q.description[..|q.description| - 19] == "Lambda created AMI of instance " + instance.instanceId + " on "
            && q.name[|q.name| - 19..] == q.description[|q.description| - 19..]
            && Dates.ParseStamp(q.name[|q.name| - 19..]) == Some((now.date, now.hour, now.minute, now.second))
  {
    var stamp := Dates.FormatStamp(now);
    assert |stamp| == 19;
    Dates.ParseFormatStamp(now);
    var q := CreateImageRequest(instance, amiName, now);
    var namePrefix := amiName + " " + instance.instanceId + " ";
    var descriptionPrefix := "Lambda created AMI of instance " + instance.instanceId + " on ";
    assert q.name == namePrefix + stamp;
    assert q.description == descriptionPrefix + stamp;
    assert q.name[..|q.name| - 19] == namePrefix && q.name[|q.name| - 19..] == stamp;
    assert q.description[..|q.description| - 19] == descriptionPrefix && q.description[|q.description| - 19..] == stamp;
  }

  lemma CreationKinds(instances: seq<Instance>, default: int, clock: nat -> Dates.CivilDateTime, n: nat)
    requires CreatesUpTo(instances, default, n)
    ensures |CreationRequests(instances, default, clock, n)| == n
    ensures forall i :: 0 <= i < n ==> CreationRequests(instances, default, clock, n)[i].CreateImage?
    ensures forall i :: 0 <= i < n ==> CreationRequests(instances, default, clock, n)[i].instanceId == instances[i].instanceId
  {
    var created := CreationRequests(instances, default, clock, n);
    forall i | 0 <= i < n
      ensures created[i].CreateImage? && created[i].instanceId == instances[i].instanceId
    {
      var q := CreateImageRequest(instances[i], NameAfter(instances, i).value, clock(i));
      assert created[i] == q;
      assert q.CreateImage? && q.instanceId == instances[i].instanceId;
    }
  }

  /** The `i`-th `create_image` request is built from the `i`-th instance, the
      `amiName` bound after its visit, and the `i`-th clock reading. */
  lemma CreationElements(instances: seq<Instance>, default: int, clock: nat -> Dates.CivilDateTime, n: nat)
    requires CreatesUpTo(instances, default, n)
    ensures |CreationRequests(instances, default, clock, n)| == n
    ensures forall i :: 0 <= i < n ==> CreationRequests(instances, default, clock, n)[i]
                                       == CreateImageRequest(instances[i], NameAfter(instances, i).value, clock(i))
  {
  }

  /** With no instance found, the handler issues nothing and returns. */
  lemma ExpectedNoInstances(reservations: seq<Reservation>, accountNumber: string, retentionDays: int,
                            clock: nat -> Dates.CivilDateTime, imageIds: nat -> string,
                            today: nat -> Dates.CivilDate, snapshots: nat -> seq<string>)
    requires !MissingInstances(reservations) && Flatten(reservations) == []
    ensures Expected(reservations, accountNumber, retentionDays, clock, imageIds, today, snapshots) == Outcome([], None)
  {
    var rets := Retentions([], retentionDays, 0);
    assert Distinct(rets) == [];
    assert CreationRequests([], retentionDays, clock, 0) == [];
    assert BucketRequests(BucketMap([], rets), [], today, 0) == [];
  }

  /** When an exception stops the image loop, the images requested so far are
      those of the instances before the failing one, and nothing is tagged or
      looked up. */
  lemma ExpectedCreationFailure(reservations: seq<Reservation>, accountNumber: string, retentionDays: int,
                                clock: nat -> Dates.CivilDateTime, imageIds: nat -> string,
                                today: nat -> Dates.CivilDate, snapshots: nat -> seq<string>)
    requires !MissingInstances(reservations)
    requires CreatedCount(Flatten(reservations), retentionDays) < |Flatten(reservations)|
    ensures var o := Expected(reservations, accountNumber, retentionDays, clock, imageIds, today, snapshots);
            var n := CreatedCount(Flatten(reservations), retentionDays);
            && o.raised.Some?
            && (o.raised.value.ValueError? || o.raised.value == KeyError("Tags") || o.raised.value == UnboundLocalError("amiName"))
            && Count(o.requests, ImageKind) == n
            && Count(o.requests, TagKind) == 0 && Count(o.requests, DescribeKind) == 0 && Count(o.requests, UntagKind) == 0
            && |o.requests| == n
            && (forall k :: 0 <= k < n ==> o.requests[k].CreateImage? && o.requests[k].instanceId == Flatten(reservations)[k].instanceId)
            && (forall k :: 0 <= k < n ==>
                  o.requests[k] == CreateImageRequest(Flatten(reservations)[k], NameAfter(Flatten(reservations), k).value, clock(k)))
  {
    var instances := Flatten(reservations);
    var n := CreatedCount(instances, retentionDays);
    var created := CreationRequests(instances, retentionDays, clock, n);
    CreationFailureUnfold(reservations, accountNumber, retentionDays, clock, imageIds, today, snapshots);
    CreationKinds(instances, retentionDays, clock, n);
    CreationElements(instances, retentionDays, clock, n);
    CreationCounts(instances, retentionDays, clock, n);
    FailureKinds(instances, retentionDays, n);
  }

  /** The creation phase issues only `create_image` requests. */
  lemma CreationCounts(instances: seq<Instance>, default: int, clock: nat -> Dates.CivilDateTime, n: nat)
    requires CreatesUpTo(instances, default, n)
    ensures forall k: Kind :: Count(CreationRequests(instances, default, clock, n), k) == if k == ImageKind then n else 0
  {
    var created := CreationRequests(instances, default, clock, n);
    CreationKinds(instances, default, clock, n);
    forall k: Kind ensures Count(created, k) == if k == ImageKind then n else 0 {
      CountUniform(created, ImageKind, k);
    }
  }

  /** A visit raises `ValueError` for a `Retention` value, `KeyError` for
      missing `Tags`, or `UnboundLocalError` for `amiName`; nothing else. */
  lemma FailureKinds(instances: seq<Instance>, default: int, k: nat)
    requires k < |instances| && InstanceFailure(instances, default, k).Some?
    ensures var e := InstanceFailure(instances, default, k).value;
            e.ValueError? || e == KeyError("Tags") || e == UnboundLocalError("amiName")
  {
  }

  /** The body of `Expected` for a run in which some visit raises. */
  lemma CreationFailureUnfold(reservations: seq<Reservation>, accountNumber: string, retentionDays: int,
                              clock: nat -> Dates.CivilDateTime, imageIds: nat -> string,
                              today: nat -> Dates.CivilDate, snapshots: nat -> seq<string>)
    requires !MissingInstances(reservations)
    requires CreatedCount(Flatten(reservations), retentionDays) < |Flatten(reservations)|
    ensures var n := CreatedCount(Flatten(reservations), retentionDays);
            Expected(reservations, accountNumber, retentionDays, clock, imageIds, today, snapshots)
            == Outcome(CreationRequests(Flatten(reservations), retentionDays, clock, n),
                       InstanceFailure(Flatten(reservations), retentionDays, n))
  {
  }

  /** Once every image is requested, and unless a date overflows: one tag
      request per bucket, then per image one lookup, and per snapshot found a
      tag request and, when instances were found, an untag request. */
  lemma TaggingCounts(amiList: seq<string>, rets: seq<int>, accountNumber: string,
                      today: nat -> Dates.CivilDate, snapshots: nat -> seq<string>, instanceIds: seq<string>)
    requires |amiList| == |rets|
    requires Tagging(amiList, rets, accountNumber, today, snapshots, instanceIds).raised.None?
    ensures var trace := Tagging(amiList, rets, accountNumber, today, snapshots, instanceIds).requests;
            forall k: Kind :: Count(trace, k) == (if k == TagKind then |Distinct(rets)| else 0)
                                                 + SnapshotCount(snapshots, instanceIds, |amiList|, k)
  {
    var tagged, deleteFmt := TaggingParts(amiList, rets, accountNumber, today, snapshots, instanceIds);
    var propagated := SnapshotRequests(amiList, accountNumber, snapshots, deleteFmt, instanceIds, |amiList|);
    forall k: Kind ensures Count(propagated, k) == SnapshotCount(snapshots, instanceIds, |amiList|, k) {
      SnapshotCounts(amiList, accountNumber, snapshots, deleteFmt, instanceIds, |amiList|, k);
    }
    ThenCounts(tagged, propagated, TagKind);
  }

  /** The lookups after the bucket tags are one per image, in creation order. */
  lemma TaggingLookups(amiList: seq<string>, rets: seq<int>, accountNumber: string,
                       today: nat -> Dates.CivilDate, snapshots: nat -> seq<string>, instanceIds: seq<string>)
    requires |amiList| == |rets|
    requires Tagging(amiList, rets, accountNumber, today, snapshots, instanceIds).raised.None?
    ensures var trace := Tagging(amiList, rets, accountNumber, today, snapshots, instanceIds).requests;
            && |Lookups(trace)| == |amiList|
            && (forall i :: 0 <= i < |amiList| ==> Lookups(trace)[i] == DescribeRequest(accountNumber, amiList[i]))
  {
    var tagged, deleteFmt := TaggingParts(amiList, rets, accountNumber, today, snapshots, instanceIds);
    var propagated := SnapshotRequests(amiList, accountNumber, snapshots, deleteFmt, instanceIds, |amiList|);
    SnapshotLookups(amiList, accountNumber, snapshots, deleteFmt, instanceIds, |amiList|);
    FiltersNone(tagged);
    FiltersConcat(tagged, propagated);
    assert Lookups(tagged + propagated) == Lookups(propagated);
  }

  /** A run of the tagging phase that raises nothing is its bucket tags
      followed by its snapshot requests. */
  lemma TaggingParts(amiList: seq<string>, rets: seq<int>, accountNumber: string,
                     today: nat -> Dates.CivilDate, snapshots: nat -> seq<string>, instanceIds: seq<string>)
    returns (tagged: seq<Request>, deleteFmt: Option<string>)
    requires |amiList| == |rets|
    requires Tagging(amiList, rets, accountNumber, today, snapshots, instanceIds).raised.None?
    ensures amiList != [] ==> deleteFmt.Some?
    ensures Tagging(amiList, rets, accountNumber, today, snapshots, instanceIds).requests
            == tagged + SnapshotRequests(amiList, accountNumber, snapshots, deleteFmt, instanceIds, |amiList|)
    ensures |tagged| == |Distinct(rets)|
    ensures forall j :: 0 <= j < |tagged| ==> tagged[j].CreateTags?
  {
    var keys := Distinct(rets);
    TaggingUnfold(amiList, rets, accountNumber, today, snapshots, instanceIds);
    tagged := BucketRequests(BucketMap(amiList, rets), keys, today, |keys|);
    BucketShape(BucketMap(amiList, rets), keys, today, |keys|);
    deleteFmt := LastDeleteOn(keys, today);
  }

  /** The body of `Tagging` for a run in which no date overflows. */
  lemma TaggingUnfold(amiList: seq<string>, rets: seq<int>, accountNumber: string,
                      today: nat -> Dates.CivilDate, snapshots: nat -> seq<string>, instanceIds: seq<string>)
    requires |amiList| == |rets|
    requires Tagging(amiList, rets, accountNumber, today, snapshots, instanceIds).raised.None?
    ensures TaggedCount(Distinct(rets), today) == |Distinct(rets)|
    ensures amiList != [] ==> LastDeleteOn(Distinct(rets), today).Some?
    ensures Tagging(amiList, rets, accountNumber, today, snapshots, instanceIds).requests
            == BucketRequests(BucketMap(amiList, rets), Distinct(rets), today, |Distinct(rets)|)
               + SnapshotRequests(amiList, accountNumber, snapshots, LastDeleteOn(Distinct(rets), today),
                                  instanceIds, |amiList|)
  {
    assert amiList != [] ==> rets[0] in Distinct(rets);
  }

  lemma BucketShape(toTag: map<int, seq<string>>, keys: seq<int>, today: nat -> Dates.CivilDate, m: nat)
    requires m <= |keys|
    requires forall j :: 0 <= j < |keys| ==> keys[j] in toTag
    requires forall j :: 0 <= j < m ==> DeleteOn(today(j), keys[j]).Some?
    ensures |BucketRequests(toTag, keys, today, m)| == m
    ensures forall j :: 0 <= j < m ==> BucketRequests(toTag, keys, today, m)[j].CreateTags?
  {
  }

  /** The counts and lookups of a trace made of requests of one kind followed by another trace. */
  lemma ThenCounts(first: seq<Request>, rest: seq<Request>, kind: Kind)
    requires forall i :: 0 <= i < |first| ==> KindOf(first[i]) == kind && !first[i].DescribeSnapshots?
    ensures forall k: Kind :: Count(first + rest, k) == (if k == kind then |first| else 0) + Count(rest, k)
    ensures Lookups(first + rest) == Lookups(rest)
  {
    forall k: Kind ensures Count(first + rest, k) == (if k == kind then |first| else 0) + Count(rest, k) {
      CountUniform(first, kind, k);
      CountConcat(first, rest, k);
    }
    FiltersNone(first);
    FiltersConcat(first, rest);
  }

  /** A run that raises nothing requested one image per instance, in
      discovery order. */
  lemma ExpectedSuccessImages(reservations: seq<Reservation>, accountNumber: string, retentionDays: int,
                      clock: nat -> Dates.CivilDateTime, imageIds: nat -> string,
                      today: nat -> Dates.CivilDate, snapshots: nat -> seq<string>)
    requires Expected(reservations, accountNumber, retentionDays, clock, imageIds, today, snapshots).raised.None?
    ensures !MissingInstances(reservations) && CreatedCount(Flatten(reservations), retentionDays) == |Flatten(reservations)|
    ensures var o := Expected(reservations, accountNumber, retentionDays, clock, imageIds, today, snapshots);
            var instances := Flatten(reservations);
            var n := |instances|;
            && Count(o.requests, ImageKind) == n
            && (forall k :: 0 <= k < n ==> o.requests[k].CreateImage? && o.requests[k].instanceId == instances[k].instanceId)
  {
    var created, amiList, rets := ExpectedParts(reservations, accountNumber, retentionDays, clock, imageIds, today, snapshots);
    var rest := Tagging(amiList, rets, accountNumber, today, snapshots, IdsOf(Flatten(reservations)));
    ThenCounts(created, rest.requests, ImageKind);
    TaggingCounts(amiList, rets, accountNumber, today, snapshots, IdsOf(Flatten(reservations)));
  }

  /** A run that raises nothing begins with exactly the `create_image`
      request of each instance, in discovery order. */
  lemma ExpectedImageRequests(reservations: seq<Reservation>, accountNumber: string, retentionDays: int,
                              clock: nat -> Dates.CivilDateTime, imageIds: nat -> string,
                              today: nat -> Dates.CivilDate, snapshots: nat -> seq<string>)
    requires Expected(reservations, accountNumber, retentionDays, clock, imageIds, today, snapshots).raised.None?
    ensures CreatedCount(Flatten(reservations), retentionDays) == |Flatten(reservations)|
    ensures var o := Expected(reservations, accountNumber, retentionDays, clock, imageIds, today, snapshots);
            var instances := Flatten(reservations);
            && |instances| <= |o.requests|
            && forall k :: 0 <= k < |instances| ==>
                 o.requests[k] == CreateImageRequest(instances[k], NameAfter(instances, k).value, clock(k))
  {
    var instances := Flatten(reservations);
    var n := CreatedCount(instances, retentionDays);
    assert n == |instances|;
    var created := CreationRequests(instances, retentionDays, clock, n);
    var rest := Tagging(ImageList(imageIds, n), Retentions(instances, retentionDays, n),
                        accountNumber, today, snapshots, IdsOf(instances));
    assert Expected(reservations, accountNumber, retentionDays, clock, imageIds, today, snapshots).requests
           == created + rest.requests;
    CreationElements(instances, retentionDays, clock, n);
  }

  /** A run that raises nothing tagged each bucket once, looked up the snapshots
      of each image once, tagged each snapshot found once, and untagged the
      instances after each snapshot when there were any. */
  lemma ExpectedSuccessCounts(reservations: seq<Reservation>, accountNumber: string, retentionDays: int,
                      clock: nat -> Dates.CivilDateTime, imageIds: nat -> string,
                      today: nat -> Dates.CivilDate, snapshots: nat -> seq<string>)
    requires Expected(reservations, accountNumber, retentionDays, clock, imageIds, today, snapshots).raised.None?
    ensures var o := Expected(reservations, accountNumber, retentionDays, clock, imageIds, today, snapshots);
            var instances := Flatten(reservations);
            var n := |instances|;
            && Count(o.requests, TagKind) == |Distinct(Retentions(instances, retentionDays, n))| + TotalSnapshots(snapshots, n)
            && Count(o.requests, UntagKind) == (if n > 0 then TotalSnapshots(snapshots, n) else 0)
            && Count(o.requests, DescribeKind) == n
  {
    var created, amiList, rets := ExpectedParts(reservations, accountNumber, retentionDays, clock, imageIds, today, snapshots);
    var rest := Tagging(amiList, rets, accountNumber, today, snapshots, IdsOf(Flatten(reservations)));
    var ids := IdsOf(Flatten(reservations));
    ThenCounts(created, rest.requests, ImageKind);
    TaggingCounts(amiList, rets, accountNumber, today, snapshots, ids);
    var trace := created + rest.requests;
    assert Count(trace, TagKind) == |Distinct(rets)| + SnapshotCount(snapshots, ids, |amiList|, TagKind);
    assert Count(trace, UntagKind) == SnapshotCount(snapshots, ids, |amiList|, UntagKind);
    assert Count(trace, DescribeKind) == SnapshotCount(snapshots, ids, |amiList|, DescribeKind);
  }

  /** A run that raises nothing looked up the snapshots of the images it
      created in creation order, filtering each lookup by the image id. */
  lemma ExpectedSuccessLookups(reservations: seq<Reservation>, accountNumber: string, retentionDays: int,
                      clock: nat -> Dates.CivilDateTime, imageIds: nat -> string,
                      today: nat -> Dates.CivilDate, snapshots: nat -> seq<string>)
    requires Expected(reservations, accountNumber, retentionDays, clock, imageIds, today, snapshots).raised.None?
    ensures var o := Expected(reservations, accountNumber, retentionDays, clock, imageIds, today, snapshots);
            var instances := Flatten(reservations);
            var n := |instances|;
            && |Lookups(o.requests)| == n
            && forall i :: 0 <= i < n ==> Lookups(o.requests)[i] == DescribeRequest(accountNumber, imageIds(i))
  {
    var created, amiList, rets := ExpectedParts(reservations, accountNumber, retentionDays, clock, imageIds, today, snapshots);
    var rest := Tagging(amiList, rets, accountNumber, today, snapshots, IdsOf(Flatten(reservations)));
    ThenCounts(created, rest.requests, ImageKind);
    TaggingLookups(amiList, rets, accountNumber, today, snapshots, IdsOf(Flatten(reservations)));
  }

  /** A run that raises nothing is its image requests followed by a run of the
      tagging phase that raises nothing. */
  lemma ExpectedParts(reservations: seq<Reservation>, accountNumber: string, retentionDays: int,
                      clock: nat -> Dates.CivilDateTime, imageIds: nat -> string,
                      today: nat -> Dates.CivilDate, snapshots: nat -> seq<string>)
    returns (created: seq<Request>, amiList: seq<string>, rets: seq<int>)
    requires Expected(reservations, accountNumber, retentionDays, clock, imageIds, today, snapshots).raised.None?
    ensures !MissingInstances(reservations)
    ensures CreatedCount(Flatten(reservations), retentionDays) == |Flatten(reservations)|
    ensures |created| == |amiList| == |rets| == |Flatten(reservations)|
    ensures forall k :: 0 <= k < |created| ==>
              created[k].CreateImage? && created[k].instanceId == Flatten(reservations)[k].instanceId
    ensures forall k :: 0 <= k < |amiList| ==> amiList[k] == imageIds(k)
    ensures rets == Retentions(Flatten(reservations), retentionDays, |Flatten(reservations)|)
    ensures |Flatten(reservations)| > 0 <==> IdsOf(Flatten(reservations)) != []
    ensures var rest := Tagging(amiList, rets, accountNumber, today, snapshots, IdsOf(Flatten(reservations)));
            && rest.raised.None?
            && Expected(reservations, accountNumber, retentionDays, clock, imageIds, today, snapshots).requests
               == created + rest.requests
  {
    var instances := Flatten(reservations);
    var n := CreatedCount(instances, retentionDays);
    ExpectedSucceeds(reservations, accountNumber, retentionDays, clock, imageIds, today, snapshots);
    CreationSuccessUnfold(reservations, accountNumber, retentionDays, clock, imageIds, today, snapshots);
    CreationKinds(instances, retentionDays, clock, n);
    created := CreationRequests(instances, retentionDays, clock, n);
    amiList := ImageList(imageIds, n);
    rets := Retentions(instances, retentionDays, n);
    assert |IdsOf(instances)| == n;
  }

  /** A run that raises nothing found every reservation's instances and
      reached `create_image` for each of them. */
  lemma ExpectedSucceeds(reservations: seq<Reservation>, accountNumber: string, retentionDays: int,
                         clock: nat -> Dates.CivilDateTime, imageIds: nat -> string,
                         today: nat -> Dates.CivilDate, snapshots: nat -> seq<string>)
    requires Expected(reservations, accountNumber, retentionDays, clock, imageIds, today, snapshots).raised.None?
    ensures !MissingInstances(reservations)
    ensures CreatedCount(Flatten(reservations), retentionDays) == |Flatten(reservations)|
  {
    ExpectedRaises(reservations, accountNumber, retentionDays, clock, imageIds, today, snapshots);
  }

  /** A reservation without `Instances`, or a visit that stops before
      `create_image`, makes the run raise. */
  lemma ExpectedRaises(reservations: seq<Reservation>, accountNumber: string, retentionDays: int,
                       clock: nat -> Dates.CivilDateTime, imageIds: nat -> string,
                       today: nat -> Dates.CivilDate, snapshots: nat -> seq<string>)
    ensures MissingInstances(reservations) || CreatedCount(Flatten(reservations), retentionDays) < |Flatten(reservations)|
            ==> Expected(reservations, accountNumber, retentionDays, clock, imageIds, today, snapshots).raised.Some?
  {
    if !MissingInstances(reservations) {
      var instances := Flatten(reservations);
      var n := CreatedCount(instances, retentionDays);
      if n < |instances| {
        assert InstanceFailure(instances, retentionDays, n).Some?;
      }
    }
  }

  /** The body of `Expected` for a run in which every visit reaches `create_image`. */
  lemma CreationSuccessUnfold(reservations: seq<Reservation>, accountNumber: string, retentionDays: int,
                              clock: nat -> Dates.CivilDateTime, imageIds: nat -> string,
                              today: nat -> Dates.CivilDate, snapshots: nat -> seq<string>)
    requires !MissingInstances(reservations)
    requires CreatedCount(Flatten(reservations), retentionDays) == |Flatten(reservations)|
    ensures var instances := Flatten(reservations);
            var n := |instances|;
            Expected(reservations, accountNumber, retentionDays, clock, imageIds, today, snapshots)
            == Then(CreationRequests(instances, retentionDays, clock, n),
                    Tagging(ImageList(imageIds, n), Retentions(instances, retentionDays, n),
                            accountNumber, today, snapshots, IdsOf(instances)))
  {
  }
}
