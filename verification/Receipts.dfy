/** Persistent receipts: what they record and when one is acceptable. Paths are kept as
    the bytes they were written with and compared component by component. */
module Receipts {
  import opened Outcomes
  import opened Paths
  import opened Config
  import opened TuningGoals

  /** Text held byte by byte. */
  type Byte = c: char | c as int < 256 witness 'a'
  type ByteString = seq<Byte>

  datatype WritableValue = WritableValue(path: ByteString, value: ByteString)

  datatype Identity = Identity(index: nat, pid: nat)

  datatype Receipt = Receipt(
    adminPath: ByteString, lockPath: ByteString, bootId: ByteString, values: seq<WritableValue>,
    volatile: seq<ByteString>, kdamonds: nat, identities: seq<Identity>)

  /** Which byte strings are text, and the decimal parsers for path components and for trimmed values. */
  datatype Platform = Platform(isText: string -> bool, index: string -> Option<nat>, number: string -> Option<nat>)

  // ---------- paths as bytes ----------

  /** The pieces between separators. */
  function Pieces(raw: string): (pieces: seq<string>)
    ensures pieces != []
    decreases |raw|
  {
    if raw == "" then [""]
    else if raw[0] == '/' then [""] + Pieces(raw[1..])
    else
      var rest := Pieces(raw[1..]);
      [[raw[0]] + rest[0]] + rest[1..]
  }

  /** Repeated separators and inner dots do not count. */
  function Names(pieces: seq<string>): Path
    decreases |pieces|
  {
    if pieces == [] then []
    else if pieces[0] == "" || pieces[0] == "." then Names(pieces[1..])
    else [pieces[0]] + Names(pieces[1..])
  }

  function Components(raw: string): Path {
    Names(Pieces(raw))
  }

  predicate IsAbsolute(raw: string) {
    raw != "" && raw[0] == '/'
  }

  /** A non-empty relative path of ordinary names only. */
  predicate IsRelative(raw: string) {
    raw != "" && raw[0] != '/' && '\0' !in raw && Pieces(raw)[0] != "." && ".." !in Pieces(raw)
  }

  lemma {:induction false} PiecesOfJoin(name: string, rest: string)
    requires '/' !in name
    ensures Pieces(name + "/" + rest) == [name] + Pieces(rest)
    decreases |name|
  {
    var raw := name + "/" + rest;
    if name == "" {
      assert raw[1..] == rest;
    } else {
      assert raw[1..] == name[1..] + "/" + rest;
      PiecesOfJoin(name[1..], rest);
      assert raw[0] == name[0] && name[0] in name && name == [name[0]] + name[1..];
    }
  }

  lemma {:induction false} PiecesOfName(name: string)
    requires '/' !in name
    ensures Pieces(name) == [name]
    decreases |name|
  {
    if name != "" {
      PiecesOfName(name[1..]);
      assert name[0] in name && name == [name[0]] + name[1..];
    }
  }

  predicate IsHexDigit(c: char) {
    '0' <= c <= '9' || 'a' <= c <= 'f' || 'A' <= c <= 'F'
  }

  predicate IsBootId(s: string) {
    |s| == 36 && forall k | 0 <= k < 36 :: if k == 8 || k == 13 || k == 18 || k == 23 then s[k] == '-' else IsHexDigit(s[k])
  }

  // ---------- which intervals a kernel retunes, from the raw values ----------

  const COUNT_PATH: Path := ["kdamonds", "nr_kdamonds"]

  /** Strictly increasing. */
  ghost predicate Increasing(paths: seq<Path>) {
    forall i, j | 0 <= i < j < |paths| :: PathLess(paths[i], paths[j])
  }

  /** The `intervals` directory of a context within the hierarchy whose tuning goal this leaf is. */
  function TunedIntervals(platform: Platform, path: Path, kdamonds: nat): Option<Path> {
    if |path| == 8 && path[0] == "kdamonds" && platform.index(path[1]).Some? && platform.index(path[1]).value < kdamonds
       && path[2] == "contexts" && platform.index(path[3]).Some? && path[4..] == GOAL_SUFFIX
    then Some(path[..6]) else None
  }

  /** Whether this captured leaf says that its context's intervals are being tuned. */
  predicate TunesIntervals(platform: Platform, e: Entry, kdamonds: nat) {
    TunedIntervals(platform, e.path, kdamonds).Some? && platform.number(e.value).Some? && platform.number(e.value).value != 0
  }

  /** The leaves the kernel retunes, read off the raw values. */
  function ExpectedVolatile(platform: Platform, entries: seq<Entry>, kdamonds: nat): set<Path> {
    (set e | e in entries && TunesIntervals(platform, e, kdamonds) :: e.path[..6] + ["aggr_us"])
    + (set e | e in entries && TunesIntervals(platform, e, kdamonds) :: e.path[..6] + ["sample_us"])
  }

  /** Every tuning goal is a number, and the leaves it makes volatile were captured. */
  predicate GoalsReadable(platform: Platform, entries: seq<Entry>, kdamonds: nat) {
    forall e | e in entries :: GoalReadable(platform, entries, e, kdamonds)
  }

  predicate HasPath(entries: seq<Entry>, path: Path) {
    exists e | e in entries :: e.path == path
  }

  /** One captured value's share of the check. */
  predicate GoalReadable(platform: Platform, entries: seq<Entry>, e: Entry, kdamonds: nat) {
    TunedIntervals(platform, e.path, kdamonds).Some? ==>
      && platform.number(e.value).Some?
      && (platform.number(e.value).value != 0 ==> HasPath(entries, e.path[..6] + ["aggr_us"]) && HasPath(entries, e.path[..6] + ["sample_us"]))
  }

  /** `expected_volatile_paths`: one pass over the captured values. */
  method ExpectedVolatilePaths(platform: Platform, entries: seq<Entry>, kdamonds: nat) returns (r: Result<set<Path>>)
    ensures r == if GoalsReadable(platform, entries, kdamonds) then Ok(ExpectedVolatile(platform, entries, kdamonds)) else Err(InvalidReceipt)
  {
    hide ExpectedVolatile, HasPath, GoalReadable;
    var paths: set<Path> := {};
    NothingExpected(platform, kdamonds);
    for n := 0 to |entries|
      invariant paths == ExpectedVolatile(platform, entries[..n], kdamonds)
      invariant forall m | 0 <= m < n :: GoalReadable(platform, entries, entries[m], kdamonds)
    {
      var e := entries[n];
      assert e in entries;
      ExpectedGrows(platform, entries, n, kdamonds);
      if !GoalReadable(platform, entries, e, kdamonds) { return Err(InvalidReceipt); }
      if TunesIntervals(platform, e, kdamonds) {
        paths := paths + {e.path[..6] + ["aggr_us"], e.path[..6] + ["sample_us"]};
      }
    }
    assert entries[..|entries|] == entries;
    r := Ok(paths);
  }

  lemma NothingExpected(platform: Platform, kdamonds: nat)
    ensures ExpectedVolatile(platform, [], kdamonds) == {}
  {
  }

  lemma ExpectedGrows(platform: Platform, entries: seq<Entry>, n: nat, kdamonds: nat)
    requires n < |entries|
    ensures ExpectedVolatile(platform, entries[..n + 1], kdamonds) == ExpectedVolatile(platform, entries[..n], kdamonds)
      + (if TunesIntervals(platform, entries[n], kdamonds) then {entries[n].path[..6] + ["aggr_us"], entries[n].path[..6] + ["sample_us"]} else {})
  {
    assert entries[..n + 1] == entries[..n] + [entries[n]];
  }

  // ---------- acceptable receipts ----------

  function EntryOf(v: WritableValue): Entry {
    Entry(Components(v.path), v.value)
  }

  function Entries(values: seq<WritableValue>): (entries: seq<Entry>)
    ensures |entries| == |values| && forall k | 0 <= k < |values| :: entries[k] == EntryOf(values[k])
  {
    seq(|values|, k requires 0 <= k < |values| => EntryOf(values[k]))
  }

  function PathList(raws: seq<string>): (paths: seq<Path>)
    ensures |paths| == |raws| && forall k | 0 <= k < |raws| :: paths[k] == Components(raws[k])
  {
    seq(|raws|, k requires 0 <= k < |raws| => Components(raws[k]))
  }

  /** `validate_receipt_configuration`. */
  ghost predicate ValidConfiguration(platform: Platform, values: seq<WritableValue>, volatile: seq<string>, kdamonds: nat) {
    && Sorted(Entries(values)) && Increasing(PathList(volatile))
    && (exists e | e in Entries(values) :: e.path == COUNT_PATH && platform.number(e.value) == Some(kdamonds))
    && GoalsReadable(platform, Entries(values), kdamonds)
    && Elements(PathList(volatile)) == ExpectedVolatile(platform, Entries(values), kdamonds)
  }

  predicate ValidIdentities(identities: seq<Identity>, kdamonds: nat) {
    && |identities| <= kdamonds
    && (forall k | 0 <= k < |identities| :: identities[k].index < kdamonds && 1 <= identities[k].pid <= I32_MAX)
    && forall k | 0 < k < |identities| :: identities[k - 1].index < identities[k].index
  }

  predicate ValidValue(platform: Platform, v: WritableValue) {
    IsRelative(v.path) && platform.isText(v.value)
  }

  predicate ValidHeader(platform: Platform, adminPath: string, lockPath: string, bootId: string) {
    && IsAbsolute(adminPath) && IsAbsolute(lockPath) && '\0' !in adminPath && '\0' !in lockPath
    && platform.isText(bootId) && IsBootId(bootId)
  }

  /** What every decoded receipt satisfies. */
  ghost predicate ValidReceipt(platform: Platform, r: Receipt) {
    && ValidHeader(platform, r.adminPath, r.lockPath, r.bootId)
    && (forall v | v in r.values :: ValidValue(platform, v))
    && (forall p | p in r.volatile :: IsRelative(p))
    && 0 < r.kdamonds
    && ValidConfiguration(platform, r.values, r.volatile, r.kdamonds)
    && ValidIdentities(r.identities, r.kdamonds)
  }
}
