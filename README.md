# AMI backup handler, modelled in Dafny

`ami.py` is an AWS Lambda handler that backs up EC2 instances. It:

- finds the instances carrying the discovery tag `AMI=test`;
- requests one machine image (AMI) per instance;
- groups the new images by retention period (a per-instance `Retention` tag, or the `RETENTION_DAYS` default);
- tags each group with the date it may be deleted (`DeleteOn`, `MM-DD-YYYY`) and `Patching=True`;
- looks up the snapshots behind each image and tags them with the last bucket's tags;
- removes the discovery tag from the discovered instances.

The model follows the code as written, statement by statement.

- **The handler always stops at line 13.** Line 13 reads `target_tag` one line before it is assigned, so once both environment variables are read and `RETENTION_DAYS` parses, every call raises `UnboundLocalError` before issuing any request. `Ami.LambdaHandler` states exactly this.
- **Lines 14-115 are modelled by `Ami.Backup`.** The handler never reaches them, so `Ami.Backup` models them given the reservations that `describe_instances` would have returned.
- **EC2 requests form a trace.** Each request is a value of `AmiSpec.Request`, and each method returns the requests it issued, in order, and the exception that stopped it (`AmiSpec.Error`):
  - `KeyError` for a missing environment variable, a reservation without `Instances`, or an instance without `Tags`;
  - `ValueError` for a `Retention` value that `int` refuses;
  - `UnboundLocalError` for `target_tag`, or for `amiName` while no visited instance has had a `Name` tag;
  - `OverflowError` for a `DeleteOn` date outside 0001-9999.
- **Everything the handler reads from outside is a parameter, indexed by call number:**
  - the responses of `create_image` (`imageIds`) and `describe_snapshots` (`snapshots`);
  - the readings of `datetime.now()` (`clock`) and `date.today()` (`today`);
  - the environment, as a map.

Modules:

- `Wrappers`: `Option` and `Result`.
- `Decimal`: digit strings and zero padding.
- `PyInt`: Python's `int(str)`.
- `Dates`: proleptic Gregorian dates, `date + timedelta`, and the two `strftime` layouts the handler uses.
- `AmiSpec`: the records, and a declarative definition of every request the handler issues. `Expected` is the whole run from line 14 on.
- `Ami`: the handler as loops over its lists and its `to_tag` dictionary, each method proved equal to its `AmiSpec` definition.
- `AmiProperties`: what those definitions imply.

Some consequences of the code as written, which the model keeps:

- Every call that gets past lines 10-11 crashes at line 13, including one that would find no instance.
- An instance without a `Name` tag reuses the `Name` of the latest earlier instance that had one, however many instances back, or raises `UnboundLocalError` when no earlier instance had one.
- Every snapshot is tagged with the `DeleteOn` text of the last bucket tagged, whatever its own image's retention.
- The discovery tag is removed from every discovered instance after every snapshot.
- Any `Retention` value that is not an integer raises, even one after a valid `Retention` tag. This is because the list comprehension parses all of them before taking the first.

## Model

| member | source | states |
|---|---|---|
| Ami.LambdaHandler | ami.py:9-13 | issues no request; a missing `AWS_ACCOUNT_NUMBER` or `RETENTION_DAYS` raises `KeyError` naming it; a value `int` refuses raises `ValueError` with that value; otherwise it raises `UnboundLocalError("target_tag")` |
| Ami.Backup | ami.py:14-115 | the requests and the exception of lines 14-115 are those of `AmiSpec.Expected` |
| Ami.Discover | ami.py:15-27 | `instance_ids` holds the ids of all instances in reservation order; `KeyError("Instances")` exactly when some reservation lacks `Instances`; otherwise `instances` is every reservation's instances in order |
| Ami.CreateImages | ami.py:31-61 | requests one image per instance up to the first failing visit, which raises that visit's exception; `amiList` holds the returned ids in order; the keys of `to_tag` are the retentions in first-seen order, each mapped to its images |
| Ami.VisitInstance | ami.py:34-60 | one visit raises exactly the instance's failure, and changes nothing when it does (`amiName`, the trace, `amiList`, `to_tag`); otherwise it extends the request trace, `amiList` and `to_tag` by this instance |
| Ami.FindName | ami.py:46-49 | `amiName` becomes the first `Name` tag's value, and stays as it was when there is none |
| Ami.Append | ami.py:59 | `defaultdict(list)` append: a new key starts an empty list and joins the end of the key order |
| Ami.TagBuckets | ami.py:63-74 | one `create_tags` per key in key order until a date overflows, which raises `OverflowError`; `delete_fmt` is the last bucket's date text |
| Ami.TagSnapshots | ami.py:82-115 | per image one `describe_snapshots`, then per snapshot a tag request with the leftover `delete_fmt`, and an untag of all instances when there are any |
| AmiSpec.SumInstances | ami.py:22-27 | the `sum` comprehension fails exactly when some reservation lacks `Instances`, and otherwise gives the instances in reservation order |
| AmiSpec.FirstWithKey | ami.py:46-49 | the index of the first tag with the key, with no earlier tag carrying it; none exactly when no tag carries it |
| AmiSpec.InstanceFailure | ami.py:35-49 | a visit reaches `create_image` exactly when its retention lookup succeeds and `amiName` is bound |
| AmiSpec.CreatedCount | ami.py:34-57 | every instance before the count reaches `create_image`, and the instance at the count does not |
| AmiSpec.Retentions | ami.py:36-41 | one retention per created image, each the one its instance's lookup returned |
| AmiSpec.Distinct | ami.py:59-63 | the keys of `to_tag`: exactly the retentions seen, each once |
| AmiSpec.TaggedCount | ami.py:63-65 | the buckets before the count get a valid date, and the bucket at the count overflows |
| AmiProperties.FlattenPosition | ami.py:17-19 | the `i`-th instance of the `j`-th reservation comes after all earlier reservations' instances and its own earlier siblings |
| AmiProperties.RetentionFromFirstTag | ami.py:36-39 | when every `Retention` value parses, the first `Retention` tag gives the retention |
| AmiProperties.RetentionDefault | ami.py:40-41 | without a `Retention` tag, the configured default applies |
| AmiProperties.RetentionRaises | ami.py:36-39 | any unparsable `Retention` value raises `ValueError`, naming the first unparsable value in the tag list, which stands at or before it |
| AmiProperties.NameAtLatest | ami.py:46-49 | `amiName` is the `Name` of the latest visited instance that has one |
| AmiProperties.NameAtUnbound | ami.py:46-53 | `amiName` is unbound exactly while no visited instance has had a `Name` tag |
| AmiProperties.DistinctFirstSeen | ami.py:59-63 | `to_tag`'s keys come in the order each retention first appears |
| AmiProperties.BucketMember | ami.py:59 | an id is in the bucket of `r` exactly when its image was filed with retention `r` |
| AmiProperties.BucketsDisjoint | ami.py:59 | with distinct image ids, buckets of different retentions share no id |
| AmiProperties.BucketsPartition | ami.py:59-63 | the buckets, taken in key order, hold every created image exactly once (as a multiset) |
| AmiProperties.DeleteOnMeaning | ami.py:64-65 | the date text exists exactly when the sum is in the calendar, and it reads back as the one calendar date exactly `days` after today |
| AmiProperties.SnapshotCounts | ami.py:82-115 | the snapshot phase makes one lookup per image, one tag request per snapshot, and one untag per snapshot when instances were found |
| AmiProperties.SnapshotLookups | ami.py:82-97 | the snapshot lookups are made in `amiList` order, each filtered by its image id and owned by the account |
| AmiProperties.SnapshotTagsShareDate | ami.py:101-115 | every snapshot tag request carries the same leftover `DeleteOn` text on one snapshot; every untag is of all instances and the `AMI` key |
| AmiProperties.SnapshotTagsExact | ami.py:82-109 | the snapshot loop's `create_tags` requests are exactly one per snapshot found, in the order found across `amiList`, each on that snapshot alone with the leftover `delete_fmt` |
| AmiProperties.SnapshotTagTargets | ami.py:101-109 | for one image, the `create_tags` requests name its snapshots one each, in order |
| AmiProperties.BucketTargets | ami.py:63-74 | the `j`-th bucket request tags exactly the images filed under the `j`-th key of `to_tag`, with that key's date |
| AmiProperties.TaggingCounts | ami.py:63-115 | after creation, a run that raises nothing issues one tag request per bucket, plus the snapshot-phase counts |
| AmiProperties.ExpectedNoInstances | ami.py:34-115 | with no instance found, lines 14-115 issue nothing and raise nothing |
| AmiProperties.ExpectedCreationFailure | ami.py:34-57 | when a visit raises, the error is `ValueError`, `KeyError("Tags")` or `UnboundLocalError("amiName")`; the trace is exactly the `create_image` requests of the earlier instances, each built from its instance, `amiName` and clock reading, and nothing is tagged or looked up |
| AmiProperties.ExpectedSuccessImages | ami.py:34-60 | a run that raises nothing requests one image per instance, in discovery order |
| AmiProperties.ExpectedImageRequests | ami.py:34-57 | a run that raises nothing begins with exactly one `create_image` request per instance, in order, built from that instance, the `amiName` then bound and the clock reading of its visit |
| AmiProperties.ImageRequestText | ami.py:43-57 | a `create_image` request uses `NoReboot=True` and `DryRun=False`; its name is `amiName`, the instance id and a stamp; its description names the instance and ends with the same stamp; the stamp reads back as the clock reading |
| AmiProperties.ExpectedSuccessCounts | ami.py:63-115 | a run that raises nothing issues one tag per bucket and per snapshot, one lookup per image, and one untag per snapshot when instances exist |
| AmiProperties.ExpectedSuccessLookups | ami.py:82-97 | a run that raises nothing looks up each created image's snapshots in creation order |
| Dates.AddDays | ami.py:64 | a result exists exactly when the sum is within 0001-01-01..9999-12-31, and it lies exactly `days` after the input |
| Dates.ParseFormatMonthDayYear | ami.py:65 | the `%m-%d-%Y` text reads back as the date it was made from |
| Dates.ParseFormatStamp | ami.py:43-44 | the `%Y-%m-%d-%H-%M-%S` text reads back as the instant it was made from |
| Decimal.Pad | ami.py:44 | a zero-padded field has exactly the width, only digits, and the value written |
| PyInt.ParseShow | ami.py:37 | every integer in canonical decimal is accepted by the model of `int`, which has no digit limit, and read back unchanged |
| PyInt.ParseRejects | ami.py:37 | a value containing a letter or a dot is refused by `int` |

## Left out

- The EC2 client (`boto3`). Requests are recorded as values and their responses are parameters. Errors raised by the API itself (throttling, permissions, bad ids) are not modelled.
- `describe_instances` and its tag filter (line 13). The call is never reached, so `Ami.Backup` takes the reservations as a parameter.
- `print` and `time.sleep(5)` (lines 29, 61, 66, 79, 80, 83, 99, 102). They change no request.
- The unused `snapshotMaster` list (line 78) and the handler's `None` return value.
- Microseconds of `datetime.now()`. The stamp format does not show them.
- The `InstanceId`, `ImageId` and `SnapshotId` fields and the `Key`/`Value` fields of a tag. They are modelled as always present, so the `KeyError` a missing one would raise is not modelled. The absent `Instances` and `Tags` entries are modelled.
- Dates.FormatStamp: always writes four year digits; some C libraries write years below 1000 with fewer.
- Dates.FormatMonthDayYear: always writes four year digits as well. A large negative `Retention` value can put the `DeleteOn` date below year 1000, where `%Y` may write fewer digits.
- PyInt.ParseInt: accepts only ASCII digits and the ASCII whitespace `int` skips (space, tab, line feed, vertical tab, form feed, carriage return). Python's `int` also accepts non-ASCII decimal digits and whitespace.
- PyInt.ParseInt: has no limit on the number of digits. CPython refuses a decimal string of more than 4300 digits by default (`sys.int_info.default_max_str_digits`). EC2 tag values are at most 256 characters and a Lambda environment is at most 4 KB, so no real `Retention` or `RETENTION_DAYS` value reaches that limit.
- Concurrency between overlapping invocations. The handler has none.
