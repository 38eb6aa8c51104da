/** What the backup handler in ami.py does, stated as functions of its inputs.

    The handler talks to EC2 only through requests; the model records those
    requests, in order, as a trace. Everything EC2 or the host returns is an
    input: the discovered reservations, the k-th reading of the clock, the image
    id returned by the k-th `create_image`, the date returned by the j-th
    `date.today()`, and the snapshot ids returned by the i-th `describe_snapshots`. */
module AmiSpec {
  import opened Wrappers
  import PyInt
  import Dates

  datatype Tag = Tag(key: string, value: string)

  /** An EC2 instance as `describe_instances` reports it; `tags` is `None`
      when the record has no `Tags` entry. */
  datatype Instance = Instance(instanceId: string, tags: Option<seq<Tag>>)

  /** A reservation; `instances` is `None` when it has no `Instances` entry. */
  datatype Reservation = Reservation(instances: Option<seq<Instance>>)

  /** The EC2 requests the handler issues. */
  datatype Request =
    | CreateImage(instanceId: string, name: string, description: string, noReboot: bool, dryRun: bool)
    | CreateTags(resources: seq<string>, tags: seq<Tag>)
    | DescribeSnapshots(dryRun: bool, ownerIds: seq<string>, filterName: string, filterValues: seq<string>)
    | DeleteTags(resources: seq<string>, tagKeys: seq<string>)

  /** The Python exceptions the handler can raise; none of them is caught. */
  datatype Error =
    | KeyError(key: string)
    | ValueError(literal: string)
    | UnboundLocalError(variable: string)
    | OverflowError

  /** What one invocation does: the requests it issued and the exception, if any, that ended it. */
  datatype Outcome = Outcome(requests: seq<Request>, raised: Option<Error>)

  /** The discovery tag, `target_tag`. */
  const TargetTag := Tag("AMI", "test")

  // ---------------------------------------------------------------- discovery

  /** `reservation.get('Instances', [])`. */
  function InstancesOf(r: Reservation): seq<Instance> {
    r.instances.GetOr([])
  }

  /** The instances of all reservations, reservation by reservation, each in its own order. */
  function Flatten(rs: seq<Reservation>): seq<Instance> {
    if rs == [] then [] else Flatten(rs[..|rs| - 1]) + InstancesOf(rs[|rs| - 1])
  }

  function IdsOf(instances: seq<Instance>): seq<string> {
    seq(|instances|, k requires 0 <= k < |instances| => instances[k].instanceId)
  }

  predicate MissingInstances(rs: seq<Reservation>) {
    exists j :: 0 <= j < |rs| && rs[j].instances.None?
  }

  /** `sum([[i for i in r['Instances']] for r in reservations], [])`: `None` where
      `r['Instances']` raises `KeyError`. */
  function SumInstances(rs: seq<Reservation>): (r: Option<seq<Instance>>)
    ensures r.Some? <==> !MissingInstances(rs)
    ensures r.Some? ==> r.value == Flatten(rs)
  {
    if rs == [] then Some([])
    else
      var init := rs[..|rs| - 1];
      assert forall j :: 0 <= j < |init| ==> init[j] == rs[j];
      match SumInstances(init)
      case None => None
      case Some(front) =>
        match rs[|rs| - 1].instances
        case None => None
        case Some(last) => Some(front + last)
  }

  // ---------------------------------------------------------------- tag lookups

  /** The position of the first tag with key `key`. */
  function FirstWithKey(tags: seq<Tag>, key: string): (r: Option<nat>)
    ensures r.Some? ==> r.value < |tags| && tags[r.value].key == key
    ensures r.Some? ==> forall j :: 0 <= j < r.value ==> tags[j].key != key
    ensures r.None? <==> forall j :: 0 <= j < |tags| ==> tags[j].key != key
  {
    if tags == [] then None
    else if tags[0].key == key then Some(0)
    else
      match FirstWithKey(tags[1..], key)
      case None => None
      case Some(i) => Some(i + 1)
  }

  /** The value of the first `Name` tag. */
  function NameLookup(tags: seq<Tag>): Option<string> {
    match FirstWithKey(tags, "Name")
    case None => None
    case Some(i) => Some(tags[i].value)
  }

  /** A `Retention` tag whose value `int(...)` refuses. */
  predicate Unparsable(t: Tag) {
    t.key == "Retention" && PyInt.ParseInt(t.value).None?
  }

  /** `[int(t['Value']) for t in tags if t['Key'] == 'Retention']`: every
      `Retention` value is parsed, in order; `Err` holds the first one refused. */
  function RetentionValues(tags: seq<Tag>): Result<seq<int>, string>
  {
    if tags == [] then Ok([])
    else
      var rest := RetentionValues(tags[1..]);
      if tags[0].key != "Retention" then rest
      else
        match PyInt.ParseInt(tags[0].value)
        case None => Err(tags[0].value)
        case Some(v) =>
          match rest
          case Err(e) => Err(e)
          case Ok(vs) => Ok([v] + vs)
  }

  /** The retention of an instance: `int` of its first `Retention` tag, or the
      default when it has none; `KeyError` when the instance has no tags at all,
      `ValueError` when any `Retention` value, not only the first, is not an
      integer (see the lemmas in AmiProperties). */
  function RetentionLookup(tags: Option<seq<Tag>>, default: int): Result<int, Error>
  {
    match tags
    case None => Err(KeyError("Tags"))
    case Some(ts) =>
      match RetentionValues(ts)
      case Err(literal) => Err(ValueError(literal))
      case Ok(vs) => Ok(if vs == [] then default else vs[0])
  }

  // ---------------------------------------------------------------- image creation

  function TagsOf(instance: Instance): seq<Tag> {
    instance.tags.GetOr([])
  }

  /** The binding of `amiName` after the loop has visited `instances[..k]`: each
      visit rebinds it to the instance's first `Name` tag, if it has one, and
      leaves it alone otherwise. `None` is the unbound variable. */
  function NameAt(instances: seq<Instance>, k: nat): Option<string>
    requires k <= |instances|
  {
    if k == 0 then None
    else
      match NameLookup(TagsOf(instances[k - 1]))
      case Some(name) => Some(name)
      case None => NameAt(instances, k - 1)
  }

  /** The binding of `amiName` once the loop has visited `instances[k]`. */
  function NameAfter(instances: seq<Instance>, k: nat): Option<string>
    requires k < |instances|
  {
    NameAt(instances, k + 1)
  }

  /** The exception the visit of `instances[k]` raises before its `create_image`, if any. */
  function InstanceFailure(instances: seq<Instance>, default: int, k: nat): (r: Option<Error>)
    requires k < |instances|
    ensures r.None? <==> RetentionLookup(instances[k].tags, default).Ok? && NameAfter(instances, k).Some?
  {
    match RetentionLookup(instances[k].tags, default)
    case Err(e) => Some(e)
    case Ok(_) => if NameAfter(instances, k).None? then Some(UnboundLocalError("amiName")) else None
  }

  /** The visits of the first `n` instances all reach `create_image`. */
  predicate CreatesUpTo(instances: seq<Instance>, default: int, n: nat) {
    && n <= |instances|
    && (forall k :: 0 <= k < n ==> RetentionLookup(instances[k].tags, default).Ok?)
    && (forall k :: 0 <= k < n ==> NameAfter(instances, k).Some?)
  }

  function FirstFailure(instances: seq<Instance>, default: int, from: nat): (r: nat)
    requires from <= |instances|
    ensures from <= r <= |instances|
    ensures forall k :: from <= k < r ==> RetentionLookup(instances[k].tags, default).Ok?
    ensures forall k :: from <= k < r ==> NameAfter(instances, k).Some?
    ensures r < |instances| ==> !(RetentionLookup(instances[r].tags, default).Ok? && NameAfter(instances, r).Some?)
    decreases |instances| - from
  {
    if from == |instances| then from
    else if InstanceFailure(instances, default, from).Some? then from
    else FirstFailure(instances, default, from + 1)
  }

  /** How many `create_image` requests the loop issues: up to the first failing instance. */
  function CreatedCount(instances: seq<Instance>, default: int): (n: nat)
    ensures CreatesUpTo(instances, default, n)
    ensures n < |instances| ==> !(RetentionLookup(instances[n].tags, default).Ok? && NameAfter(instances, n).Some?)
  {
    FirstFailure(instances, default, 0)
  }

  /** The retention of each of the first `n` instances, in order. */
  function Retentions(instances: seq<Instance>, default: int, n: nat): (rets: seq<int>)
    requires CreatesUpTo(instances, default, n)
    ensures |rets| == n
    ensures forall k :: 0 <= k < n ==> rets[k] == RetentionLookup(instances[k].tags, default).value
  {
    if n == 0 then [] else Retentions(instances, default, n - 1) + [RetentionLookup(instances[n - 1].tags, default).value]
  }

  /** `f"{amiName} {instance['InstanceId']} {create_fmt}"`. */
  function ImageName(amiName: string, instanceId: string, stamp: string): string {
    amiName + " " + instanceId + " " + stamp
  }

  /** `f"Lambda created AMI of instance {instance['InstanceId']} on {create_fmt}"`. */
  function ImageDescription(instanceId: string, stamp: string): string {
    "Lambda created AMI of instance " + instanceId + " on " + stamp
  }

  function CreateImageRequest(instance: Instance, amiName: string, now: Dates.CivilDateTime): Request {
    var stamp := Dates.FormatStamp(now);
    CreateImage(instance.instanceId, ImageName(amiName, instance.instanceId, stamp),
                ImageDescription(instance.instanceId, stamp), true, false)
  }

  /** The `create_image` requests for the first `n` instances, one each, in order. */
  function CreationRequests(instances: seq<Instance>, default: int, clock: nat -> Dates.CivilDateTime, n: nat): seq<Request>
    requires CreatesUpTo(instances, default, n)
  {
    seq(n, k requires 0 <= k < n => CreateImageRequest(instances[k], NameAfter(instances, k).value, clock(k)))
  }

  /** `amiList`: the ids returned by the first `n` `create_image` requests. */
  function ImageList(imageIds: nat -> string, n: nat): seq<string> {
    seq(n, k requires 0 <= k < n => imageIds(k))
  }

  // ---------------------------------------------------------------- grouping

  /** The values of `s` in the order they are first seen: the key order of a
      dictionary filled from `s`. */
  function Distinct(s: seq<int>): (d: seq<int>)
    ensures forall x :: x in d <==> x in s
    ensures forall i, j :: 0 <= i < j < |d| ==> d[i] != d[j]
  {
    if s == [] then []
    else
      var d := Distinct(s[..|s| - 1]);
      if s[|s| - 1] in s[..|s| - 1] then d else d + [s[|s| - 1]]
  }

  /** The ids whose retention is `r`, in creation order. */
  function Bucket(ids: seq<string>, rets: seq<int>, r: int): seq<string>
    requires |ids| == |rets|
  {
    if ids == [] then []
    else Bucket(ids[..|ids| - 1], rets[..|rets| - 1], r) + (if rets[|rets| - 1] == r then [ids[|ids| - 1]] else [])
  }

  /** `to_tag`: each retention seen, mapped to its bucket. */
  function BucketMap(ids: seq<string>, rets: seq<int>): map<int, seq<string>>
    requires |ids| == |rets|
  {
    map r | r in rets :: Bucket(ids, rets, r)
  }

  // ---------------------------------------------------------------- expiration tagging

  function ExpiryTags(deleteOn: string): seq<Tag> {
    [Tag("DeleteOn", deleteOn), Tag("Patching", "True")]
  }

  /** `(today + timedelta(days=days)).strftime('%m-%d-%Y')`; `None` on `OverflowError`. */
  function DeleteOn(today: Dates.CivilDate, days: int): Option<string> {
    match Dates.AddDays(today, days)
    case None => None
    case Some(d) => Some(Dates.FormatMonthDayYear(d))
  }

  function TaggedFrom(keys: seq<int>, today: nat -> Dates.CivilDate, from: nat): (r: nat)
    requires from <= |keys|
    ensures from <= r <= |keys|
    ensures forall j :: from <= j < r ==> DeleteOn(today(j), keys[j]).Some?
    ensures r < |keys| ==> DeleteOn(today(r), keys[r]).None?
    decreases |keys| - from
  {
    if from == |keys| || DeleteOn(today(from), keys[from]).None? then from
    else TaggedFrom(keys, today, from + 1)
  }

  /** How many buckets get their `create_tags` before a date overflows. */
  function TaggedCount(keys: seq<int>, today: nat -> Dates.CivilDate): (m: nat)
    ensures m <= |keys|
    ensures forall j :: 0 <= j < m ==> DeleteOn(today(j), keys[j]).Some?
    ensures m < |keys| ==> DeleteOn(today(m), keys[m]).None?
  {
    TaggedFrom(keys, today, 0)
  }

  /** One `create_tags` per bucket, in key order, for the first `m` buckets. */
  function BucketRequests(toTag: map<int, seq<string>>, keys: seq<int>, today: nat -> Dates.CivilDate, m: nat): seq<Request>
    requires m <= |keys|
    requires forall j :: 0 <= j < |keys| ==> keys[j] in toTag
    requires forall j :: 0 <= j < m ==> DeleteOn(today(j), keys[j]).Some?
  {
    seq(m, j requires 0 <= j < m => CreateTags(toTag[keys[j]], ExpiryTags(DeleteOn(today(j), keys[j]).value)))
  }

  /** The value `delete_fmt` is left with once every bucket has been visited. */
  function LastDeleteOn(keys: seq<int>, today: nat -> Dates.CivilDate): Option<string> {
    if keys == [] then None else DeleteOn(today(|keys| - 1), keys[|keys| - 1])
  }

  // ---------------------------------------------------------------- snapshot propagation

  function DescribeRequest(accountNumber: string, ami: string): Request {
    DescribeSnapshots(false, [accountNumber], "description", ["*" + ami + "*"])
  }

  /** The tag removal that follows each snapshot, skipped when no instance was found. */
  function UntagRequests(instanceIds: seq<string>): seq<Request> {
    if instanceIds != [] then [DeleteTags(instanceIds, [TargetTag.key])] else []
  }

  /** The requests issued for the first `n` snapshots of one image. */
  function SnapshotTagRequests(snaps: seq<string>, deleteFmt: string, instanceIds: seq<string>, n: nat): seq<Request>
    requires n <= |snaps|
  {
    if n == 0 then []
    else SnapshotTagRequests(snaps, deleteFmt, instanceIds, n - 1)
         + [CreateTags([snaps[n - 1]], ExpiryTags(deleteFmt))] + UntagRequests(instanceIds)
  }

  /** The requests issued for the first `n` images of `amiList`. */
  function SnapshotRequests(amiList: seq<string>, accountNumber: string, snapshots: nat -> seq<string>,
                            deleteFmt: Option<string>, instanceIds: seq<string>, n: nat): seq<Request>
    requires n <= |amiList| && (n > 0 ==> deleteFmt.Some?)
  {
    if n == 0 then []
    else SnapshotRequests(amiList, accountNumber, snapshots, deleteFmt, instanceIds, n - 1)
         + [DescribeRequest(accountNumber, amiList[n - 1])]
         + SnapshotTagRequests(snapshots(n - 1), deleteFmt.value, instanceIds, |snapshots(n - 1)|)
  }

  // ---------------------------------------------------------------- the whole pipeline

  /** A run that issues `first` and then goes on as `rest`. */
  function Then(first: seq<Request>, rest: Outcome): Outcome {
    Outcome(first + rest.requests, rest.raised)
  }

  /** What ami.py does from line 14 on, given the reservations that discovery returned. */
  function Expected(reservations: seq<Reservation>, accountNumber: string, retentionDays: int,
                    clock: nat -> Dates.CivilDateTime, imageIds: nat -> string,
                    today: nat -> Dates.CivilDate, snapshots: nat -> seq<string>): Outcome
  {
    if MissingInstances(reservations) then Outcome([], Some(KeyError("Instances")))
    else Creation(Flatten(reservations), accountNumber, retentionDays, clock, imageIds, today, snapshots)
  }

  /** From line 31 on: one image per instance, in order, until a visit raises. */
  function Creation(instances: seq<Instance>, accountNumber: string, retentionDays: int,
                    clock: nat -> Dates.CivilDateTime, imageIds: nat -> string,
                    today: nat -> Dates.CivilDate, snapshots: nat -> seq<string>): Outcome
  {
    var n := CreatedCount(instances, retentionDays);
    var created := CreationRequests(instances, retentionDays, clock, n);
    if n < |instances| then Outcome(created, InstanceFailure(instances, retentionDays, n))
    else Then(created, Tagging(ImageList(imageIds, n), Retentions(instances, retentionDays, n),
                               accountNumber, today, snapshots, IdsOf(instances)))
  }

  /** From line 63 on, given `amiList` and the retention each image was filed under. */
  function Tagging(amiList: seq<string>, rets: seq<int>, accountNumber: string,
                   today: nat -> Dates.CivilDate, snapshots: nat -> seq<string>, instanceIds: seq<string>): Outcome
    requires |amiList| == |rets|
  {
    var keys := Distinct(rets);
    var m := TaggedCount(keys, today);
    var tagged := BucketRequests(BucketMap(amiList, rets), keys, today, m);
    if m < |keys| then Outcome(tagged, Some(OverflowError))
    else
      assert amiList != [] ==> rets[0] in keys;
      Then(tagged, Outcome(SnapshotRequests(amiList, accountNumber, snapshots, LastDeleteOn(keys, today),
                                            instanceIds, |amiList|), None))
  }
}
