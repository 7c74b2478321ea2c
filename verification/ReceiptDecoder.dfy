/** The receipt printer and decoder as they run: an output buffer that grows, and an offset
    that advances over the input. */
module ReceiptDecoder {
  import opened Outcomes
  import opened Paths
  import opened Config
  import opened Receipts
  import opened ReceiptCodec

  /** `to_bytes`. */
  method ToBytes(r: Receipt) returns (output: ByteString)
    ensures output == Encode(r)
  {
    hide EncodeLength, EncodeBytes, EncodeValue, EncodeIdentity, LittleEndian;
    output := EncodeHeader(r);
    output := output + EncodeLength(|r.values|);
    ghost var start := output;
    for n := 0 to |r.values|
      invariant output == start + EncodeMany(EncodeValue, r.values[..n])
    {
      PrintOneMore(EncodeValue, r.values, n);
      output := output + EncodeValue(r.values[n]);
    }
    assert r.values[..|r.values|] == r.values;
    output := output + EncodeLength(|r.volatile|);
    start := output;
    for n := 0 to |r.volatile|
      invariant output == start + EncodeMany(EncodeBytes, r.volatile[..n])
    {
      PrintOneMore(EncodeBytes, r.volatile, n);
      output := output + EncodeBytes(r.volatile[n]);
    }
    assert r.volatile[..|r.volatile|] == r.volatile;
    assert output == EncodeHeader(r) + EncodeBody(r);
    output := output + EncodeLength(r.kdamonds);
    ghost var front := output;
    output := output + EncodeLength(|r.identities|);
    start := output;
    for n := 0 to |r.identities|
      invariant output == start + EncodeMany(EncodeIdentity, r.identities[..n])
    {
      PrintOneMore(EncodeIdentity, r.identities, n);
      output := output + EncodeIdentity(r.identities[n]);
    }
    assert r.identities[..|r.identities|] == r.identities;
    assert output == front + EncodeRunning(r);
  }

  lemma {:induction false} PrintOneMore<T>(encode: T -> ByteString, items: seq<T>, n: nat)
    requires n < |items|
    ensures EncodeMany(encode, items[..n + 1]) == EncodeMany(encode, items[..n]) + encode(items[n])
    decreases n
  {
    if n == 0 {
      assert items[..1] == [items[0]] && items[..0] == [];
      assert [items[0]][1..] == [];
    } else {
      PrintOneMore(encode, items[1..], n - 1);
      assert items[..n + 1][1..] == items[1..][..n];
      assert items[..n][1..] == items[1..][..n - 1];
      assert items[..n + 1][0] == items[0] == items[..n][0];
    }
  }

  class Decoder {
    const bytes: ByteString
    var offset: nat

    ghost predicate Valid()
      reads this
    {
      offset <= |bytes|
    }

    /** What is left to decode. */
    ghost function Rest(): ByteString
      requires Valid()
      reads this
    {
      bytes[offset..]
    }

    constructor (bytes: ByteString)
      ensures Valid() && this.bytes == bytes && Rest() == bytes
    {
      this.bytes := bytes;
      this.offset := 0;
    }

    method TakeRaw(n: nat) returns (r: Result<ByteString>)
      requires Valid()
      modifies this
      ensures Valid()
      ensures match Take(old(Rest()), n)
              case None => r == Err(InvalidReceipt)
              case Some(s) => r == Ok(s.value) && Rest() == s.rest
    {
      if offset + n > |bytes| { return Err(InvalidReceipt); }
      r := Ok(bytes[offset..offset + n]);
      assert bytes[offset..][..n] == bytes[offset..offset + n];
      offset := offset + n;
    }

    method ReadNumber(width: nat) returns (r: Result<nat>)
      requires Valid()
      modifies this
      ensures Valid()
      ensures match TakeNumber(old(Rest()), width)
              case None => r == Err(InvalidReceipt)
              case Some(s) => r == Ok(s.value) && Rest() == s.rest
    {
      var raw := TakeRaw(width);
      r := if raw.Err? then Err(raw.error) else Ok(Number(raw.value));
    }

    method ReadCount() returns (r: Result<nat>)
      requires Valid()
      modifies this
      ensures Valid()
      ensures match TakeCount(old(Rest()))
              case None => r == Err(InvalidReceipt)
              case Some(s) => r == Ok(s.value) && Rest() == s.rest
    {
      r := ReadNumber(8);
      if r.Ok? && r.value > |bytes| - offset { r := Err(InvalidReceipt); }
    }

    method ReadBytes() returns (r: Result<ByteString>)
      requires Valid()
      modifies this
      ensures Valid()
      ensures match TakeBytes(old(Rest()))
              case None => r == Err(InvalidReceipt)
              case Some(s) => r == Ok(s.value) && Rest() == s.rest
    {
      var n := ReadCount();
      if n.Err? { return Err(n.error); }
      r := TakeRaw(n.value);
    }

    method ReadValue(platform: Platform) returns (r: Result<WritableValue>)
      requires Valid()
      modifies this
      ensures Valid()
      ensures match TakeValue(platform, old(Rest()))
              case None => r == Err(InvalidReceipt)
              case Some(s) => r == Ok(s.value) && Rest() == s.rest
    {
      hide TakeBytes, IsRelative;
      var path := ReadBytes();
      if path.Err? { return Err(path.error); }
      if !IsRelative(path.value) { return Err(InvalidReceipt); }
      var value := ReadBytes();
      if value.Err? { return Err(value.error); }
      r := if platform.isText(value.value) then Ok(WritableValue(path.value, value.value)) else Err(InvalidReceipt);
    }

    method ReadRelativePath() returns (r: Result<ByteString>)
      requires Valid()
      modifies this
      ensures Valid()
      ensures match TakePath(old(Rest()))
              case None => r == Err(InvalidReceipt)
              case Some(s) => r == Ok(s.value) && Rest() == s.rest
    {
      hide TakeBytes, IsRelative;
      r := ReadBytes();
      if r.Ok? && !IsRelative(r.value) { r := Err(InvalidReceipt); }
    }

    method ReadValues(platform: Platform) returns (r: Result<seq<WritableValue>>)
      requires Valid()
      modifies this
      ensures Valid()
      ensures match TakeList(ValueTaker(platform), old(Rest()))
              case None => r == Err(InvalidReceipt)
              case Some(s) => r == Ok(s.value) && Rest() == s.rest
    {
      hide TakeValue, TakeCount, TakeMany;
      var count := ReadCount();
      if count.Err? { return Err(count.error); }
      ghost var start := Rest();
      var values: seq<WritableValue> := [];
      NoneTaken(ValueTaker(platform), start);
      for n := 0 to count.value
        invariant Valid() && TakeMany(ValueTaker(platform), start, n) == Some(Step(values, Rest()))
      {
        ghost var here := Rest();
        var value := ReadValue(platform);
        if value.Err? {
          TakingStops(ValueTaker(platform), start, n, count.value, values, here);
          return Err(value.error);
        }
        TakeOneMore(ValueTaker(platform), start, n, values, here, value.value, Rest());
        values := values + [value.value];
      }
      r := Ok(values);
    }

    method ReadVolatile() returns (r: Result<seq<ByteString>>)
      requires Valid()
      modifies this
      ensures Valid()
      ensures match TakeList(TakePath, old(Rest()))
              case None => r == Err(InvalidReceipt)
              case Some(s) => r == Ok(s.value) && Rest() == s.rest
    {
      hide TakePath, TakeCount, TakeMany;
      var count := ReadCount();
      if count.Err? { return Err(count.error); }
      ghost var start := Rest();
      var paths: seq<ByteString> := [];
      NoneTaken(TakePath, start);
      for n := 0 to count.value
        invariant Valid() && TakeMany(TakePath, start, n) == Some(Step(paths, Rest()))
      {
        ghost var here := Rest();
        var path := ReadRelativePath();
        if path.Err? {
          TakingStops(TakePath, start, n, count.value, paths, here);
          return Err(path.error);
        }
        TakeOneMore(TakePath, start, n, paths, here, path.value, Rest());
        paths := paths + [path.value];
      }
      r := Ok(paths);
    }

    /** Identities in the order, range and number the hierarchy allows. */
    method ReadIdentities(kdamonds: nat) returns (r: Result<seq<Identity>>)
      requires Valid()
      modifies this
      ensures Valid()
      ensures match TakeList(TakeIdentity, old(Rest()))
              case None => r == Err(InvalidReceipt)
              case Some(s) => if ValidIdentities(s.value, kdamonds) then r == Ok(s.value) && Rest() == s.rest else r == Err(InvalidReceipt)
    {
      hide TakeIdentity, TakeCount, TakeMany, ValidIdentities;
      var count := ReadCount();
      if count.Err? { return Err(count.error); }
      ghost var start := Rest();
      if count.value > kdamonds {
        TooMany(start, count.value, kdamonds);
        return Err(InvalidReceipt);
      }
      var identities: seq<Identity> := [];
      NoneTaken(TakeIdentity, start);
      NoIdentities(kdamonds);
      for n := 0 to count.value
        invariant Valid() && TakeMany(TakeIdentity, start, n) == Some(Step(identities, Rest()))
        invariant |identities| == n && ValidIdentities(identities, kdamonds)
      {
        ghost var here := Rest();
        var identity := ReadIdentity();
        if identity.Err? {
          TakingStops(TakeIdentity, start, n, count.value, identities, here);
          return Err(identity.error);
        }
        TakeOneMore(TakeIdentity, start, n, identities, here, identity.value, Rest());
        OneMoreIdentity(identities, identity.value, kdamonds);
        if identity.value.index >= kdamonds
           || (identities != [] && identities[|identities| - 1].index >= identity.value.index)
           || !(1 <= identity.value.pid <= I32_MAX) {
          BadIdentity(start, n + 1, count.value, identities + [identity.value], Rest(), kdamonds);
          return Err(InvalidReceipt);
        }
        identities := identities + [identity.value];
      }
      r := Ok(identities);
    }

    method ReadIdentity() returns (r: Result<Identity>)
      requires Valid()
      modifies this
      ensures Valid()
      ensures match TakeIdentity(old(Rest()))
              case None => r == Err(InvalidReceipt)
              case Some(s) => r == Ok(s.value) && Rest() == s.rest
    {
      hide TakeNumber;
      var index := ReadNumber(8);
      if index.Err? { return Err(index.error); }
      var pid := ReadNumber(4);
      if pid.Err? { return Err(pid.error); }
      r := Ok(Identity(index.value, pid.value));
    }

    method ReadHeader(platform: Platform) returns (r: Result<Header>)
      requires Valid()
      modifies this
      ensures Valid()
      ensures match TakeHeader(platform, old(Rest()))
              case None => r == Err(InvalidReceipt)
              case Some(s) => r == Ok(s.value) && Rest() == s.rest
    {
      hide TakeNumber, TakeBytes, ValidHeader;
      var magic := TakeRaw(|MAGIC|);
      if magic.Err? { return Err(magic.error); }
      if magic.value != MAGIC { return Err(InvalidReceipt); }
      var version := ReadNumber(4);
      if version.Err? { return Err(version.error); }
      if version.value != VERSION { return Err(InvalidReceipt); }
      var admin := ReadBytes();
      if admin.Err? { return Err(admin.error); }
      var lock := ReadBytes();
      if lock.Err? { return Err(lock.error); }
      var boot := ReadBytes();
      if boot.Err? { return Err(boot.error); }
      r := if ValidHeader(platform, admin.value, lock.value, boot.value)
           then Ok(Header(admin.value, lock.value, boot.value)) else Err(InvalidReceipt);
    }

    method ReadBody(platform: Platform) returns (r: Result<Body>)
      requires Valid()
      modifies this
      ensures Valid()
      ensures match TakeBody(platform, old(Rest()))
              case None => r == Err(InvalidReceipt)
              case Some(s) => r == Ok(s.value) && Rest() == s.rest
    {
      hide TakeList;
      var values := ReadValues(platform);
      if values.Err? { return Err(values.error); }
      var volatile := ReadVolatile();
      if volatile.Err? { return Err(volatile.error); }
      r := Ok(Body(values.value, volatile.value));
    }

    method ReadRunning(platform: Platform, body: Body) returns (r: Result<Running>)
      requires Valid()
      modifies this
      ensures Valid()
      ensures match TakeRunning(platform, body, old(Rest()))
              case None => r == Err(InvalidReceipt)
              case Some(running) => r == Ok(running)
    {
      hide TakeCount, TakeList, ValidConfiguration, ValidIdentities;
      var count := ReadCount();
      if count.Err? { return Err(count.error); }
      if count.value == 0 { return Err(InvalidReceipt); }
      var valid := ValidateConfiguration(platform, body.values, body.volatile, count.value);
      if !valid { return Err(InvalidReceipt); }
      var identities := ReadIdentities(count.value);
      if identities.Err? { return Err(identities.error); }
      r := if offset == |bytes| then Ok(Running(count.value, identities.value)) else Err(InvalidReceipt);
    }
  }

  /** `from_bytes`: the decoder computes exactly the specified function. */
  method FromBytes(platform: Platform, b: ByteString) returns (r: Result<Receipt>)
    ensures match Decode(platform, b)
            case None => r == Err(InvalidReceipt)
            case Some(receipt) => r == Ok(receipt)
  {
    hide TakeHeader, TakeBody, TakeRunning;
    var decoder := new Decoder(b);
    var header := decoder.ReadHeader(platform);
    if header.Err? { return Err(header.error); }
    var body := decoder.ReadBody(platform);
    if body.Err? { return Err(body.error); }
    var running := decoder.ReadRunning(platform, body.value);
    if running.Err? { return Err(running.error); }
    r := Ok(Receipt(header.value.adminPath, header.value.lockPath, header.value.bootId,
                    body.value.values, body.value.volatile, running.value.kdamonds, running.value.identities));
  }

  // ---------- cross-field validation ----------

  /** Comparing neighbours decides whether a list is strictly increasing. */
  method IsIncreasing(paths: seq<Path>) returns (b: bool)
    ensures b <==> Increasing(paths)
  {
    if paths == [] { return true; }
    for n := 1 to |paths|
      invariant Increasing(paths[..n])
    {
      if !PathLess(paths[n - 1], paths[n]) { return false; }
      IncreasingExtends(paths, n);
    }
    b := true;
    assert paths[..|paths|] == paths;
  }

  lemma IncreasingExtends(paths: seq<Path>, n: nat)
    requires 0 < n < |paths| && Increasing(paths[..n]) && PathLess(paths[n - 1], paths[n])
    ensures Increasing(paths[..n + 1])
  {
    var part, all := paths[..n], paths[..n + 1];
    forall i | 0 <= i < n ensures PathLess(paths[i], paths[n]) {
      if i < n - 1 {
        assert PathLess(part[i], part[n - 1]);
        PathLessTransitive(paths[i], paths[n - 1], paths[n]);
      }
    }
    forall i, j | 0 <= i < j < |all| ensures PathLess(all[i], all[j]) {
      if j < n { assert PathLess(part[i], part[j]); }
    }
  }

  lemma SortedIsIncreasing(entries: seq<Entry>, paths: seq<Path>)
    requires |paths| == |entries| && forall k | 0 <= k < |entries| :: paths[k] == entries[k].path
    ensures Sorted(entries) <==> Increasing(paths)
  {
    if Increasing(paths) {
      forall i, j | 0 <= i < j < |entries| ensures PathLess(entries[i].path, entries[j].path) {
        assert PathLess(paths[i], paths[j]);
      }
    }
  }

  method ValidateConfiguration(platform: Platform, values: seq<WritableValue>, volatile: seq<ByteString>, kdamonds: nat)
    returns (valid: bool)
    ensures valid <==> ValidConfiguration(platform, values, volatile, kdamonds)
  {
    hide Components, ExpectedVolatile, GoalsReadable, Sorted, Increasing;
    var entries := Entries(values);
    var paths := seq(|entries|, k requires 0 <= k < |entries| => entries[k].path);
    SortedIsIncreasing(entries, paths);
    var ordered := IsIncreasing(paths);
    if !ordered { return false; }
    var volatilePaths := PathList(volatile);
    ordered := IsIncreasing(volatilePaths);
    if !ordered { return false; }
    var counted := RecordsCount(platform, entries, kdamonds);
    if !counted { return false; }
    var expected := ExpectedVolatilePaths(platform, entries, kdamonds);
    if expected.Err? { return false; }
    valid := Elements(volatilePaths) == expected.value;
  }

  /** The kdamond count is looked up by binary search and must be the receipt's. */
  method RecordsCount(platform: Platform, entries: seq<Entry>, kdamonds: nat) returns (b: bool)
    requires Sorted(entries)
    ensures b <==> exists e | e in entries :: e.path == COUNT_PATH && platform.number(e.value) == Some(kdamonds)
  {
    var k := PartitionPoint(entries, COUNT_PATH);
    OnlyAtPartition(entries, COUNT_PATH, k);
    hide Sorted;
    b := k < |entries| && entries[k].path == COUNT_PATH && platform.number(entries[k].value) == Some(kdamonds);
    if b { assert entries[k] in entries; }
  }

  // ---------- identities ----------

  lemma {:induction false} TakenIsCounted<T>(take: ByteString -> Option<Step<T>>, start: ByteString, n: nat)
    requires TakeMany(take, start, n).Some?
    ensures |TakeMany(take, start, n).value.value| == n
    decreases n
  {
    if n > 0 { TakenIsCounted(take, take(start).value.rest, n - 1); }
  }

  lemma {:induction false} TakenPrefix<T>(take: ByteString -> Option<Step<T>>, start: ByteString, n: nat, count: nat, items: seq<T>, here: ByteString)
    requires TakeMany(take, start, n) == Some(Step(items, here)) && n <= count && TakeMany(take, start, count).Some?
    ensures items <= TakeMany(take, start, count).value.value
    decreases n
  {
    if n > 0 {
      var first := take(start).value;
      TakenPrefix(take, first.rest, n - 1, count - 1, TakeMany(take, first.rest, n - 1).value.value, here);
    }
  }

  lemma TooMany(start: ByteString, count: nat, kdamonds: nat)
    requires count > kdamonds
    ensures TakeMany(TakeIdentity, start, count).Some? ==> !ValidIdentities(TakeMany(TakeIdentity, start, count).value.value, kdamonds)
  {
    if TakeMany(TakeIdentity, start, count).Some? { TakenIsCounted(TakeIdentity, start, count); }
  }

  lemma NoIdentities(kdamonds: nat)
    ensures ValidIdentities([], kdamonds)
  {
  }

  lemma OneMoreIdentity(identities: seq<Identity>, next: Identity, kdamonds: nat)
    requires ValidIdentities(identities, kdamonds) && |identities| < kdamonds
    ensures ValidIdentities(identities + [next], kdamonds) <==>
              && next.index < kdamonds && 1 <= next.pid <= I32_MAX
              && (identities != [] ==> identities[|identities| - 1].index < next.index)
  {
    var all := identities + [next];
    assert all[|identities|] == next;
    if identities != [] { assert all[|identities| - 1] == identities[|identities| - 1]; }
  }

  lemma BadIdentity(start: ByteString, n: nat, count: nat, identities: seq<Identity>, here: ByteString, kdamonds: nat)
    requires TakeMany(TakeIdentity, start, n) == Some(Step(identities, here)) && n <= count && count <= kdamonds
    requires |identities| == n && !ValidIdentities(identities, kdamonds)
    ensures TakeMany(TakeIdentity, start, count).Some? ==> !ValidIdentities(TakeMany(TakeIdentity, start, count).value.value, kdamonds)
  {
    hide TakeMany;
    if TakeMany(TakeIdentity, start, count).Some? {
      TakenPrefix(TakeIdentity, start, n, count, identities, here);
      var all := TakeMany(TakeIdentity, start, count).value.value;
      assert forall k | 0 <= k < n :: all[k] == identities[k];
    }
  }

  lemma NoneTaken<T>(take: ByteString -> Option<Step<T>>, start: ByteString)
    ensures TakeMany(take, start, 0) == Some(Step([], start))
  {
  }

  lemma {:induction false} TakeOneMore<T>(take: ByteString -> Option<Step<T>>, start: ByteString, n: nat, items: seq<T>, here: ByteString, next: T, rest: ByteString)
    requires TakeMany(take, start, n) == Some(Step(items, here)) && take(here) == Some(Step(next, rest))
    ensures TakeMany(take, start, n + 1) == Some(Step(items + [next], rest))
    decreases n
  {
    if n == 0 {
      assert TakeMany(take, rest, 0) == Some(Step([], rest));
      assert [next] + [] == [next] == items + [next];
    } else {
      var first := take(start).value;
      var others := TakeMany(take, first.rest, n - 1).value;
      TakeOneMore(take, first.rest, n - 1, others.value, here, next, rest);
      assert [first.value] + (others.value + [next]) == items + [next];
    }
  }

  lemma {:induction false} TakingStops<T>(take: ByteString -> Option<Step<T>>, start: ByteString, n: nat, count: nat, items: seq<T>, here: ByteString)
    requires TakeMany(take, start, n) == Some(Step(items, here)) && take(here).None? && n < count
    ensures TakeMany(take, start, count).None?
    decreases n
  {
    if n > 0 {
      var first := take(start).value;
      TakingStops(take, first.rest, n - 1, count - 1, TakeMany(take, first.rest, n - 1).value.value, here);
    }
  }
}
