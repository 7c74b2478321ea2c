/** The binary form of a receipt: a length-prefixed printer, a decoder that advances an
    offset, and the function that decoder computes. */
module ReceiptCodec {
  import opened Outcomes
  import opened Paths
  import opened Config
  import opened Receipts

  const MAGIC: ByteString := ['D', 'A', 'M', 'O', 'N', 'R', '0', '1']
  const VERSION: nat := 1

  // ---------- fixed-width numbers ----------

  function Power(width: nat): nat {
    if width == 0 then 1 else 256 * Power(width - 1)
  }

  function LittleEndian(n: nat, width: nat): (b: ByteString)
    ensures |b| == width
    decreases width
  {
    if width == 0 then [] else [(n % 256) as Byte] + LittleEndian(n / 256, width - 1)
  }

  function Number(b: ByteString): nat
    decreases |b|
  {
    if b == [] then 0 else b[0] as int + 256 * Number(b[1..])
  }

  lemma {:induction false} NumberOfLittleEndian(n: nat, width: nat)
    requires n < Power(width)
    ensures Number(LittleEndian(n, width)) == n
    decreases width
  {
    if width > 0 {
      NumberOfLittleEndian(n / 256, width - 1);
      var rest := LittleEndian(n / 256, width - 1);
      assert ([(n % 256) as Byte] + rest)[1..] == rest;
    }
  }

  lemma {:induction false} LittleEndianOfNumber(b: ByteString)
    ensures LittleEndian(Number(b), |b|) == b && Number(b) < Power(|b|)
    decreases |b|
  {
    if b != [] {
      LittleEndianOfNumber(b[1..]);
      assert Number(b) % 256 == b[0] as int && Number(b) / 256 == Number(b[1..]);
      assert b == [b[0]] + b[1..];
    }
  }

  lemma Widths()
    ensures Power(8) == U64_MAX + 1 && Power(4) == U32_MAX + 1
  {
    assert Power(4) == 256 * (256 * (256 * (256 * Power(0))));
    assert Power(8) == 256 * (256 * (256 * (256 * Power(4))));
  }

  // ---------- the printer ----------

  function EncodeLength(n: nat): ByteString {
    LittleEndian(n, 8)
  }

  function EncodeBytes(b: ByteString): ByteString {
    EncodeLength(|b|) + b
  }

  function EncodeValue(v: WritableValue): ByteString {
    EncodeBytes(v.path) + EncodeBytes(v.value)
  }

  function EncodeIdentity(i: Identity): ByteString {
    LittleEndian(i.index, 8) + LittleEndian(i.pid, 4)
  }

  function EncodeMany<T>(encode: T -> ByteString, items: seq<T>): ByteString
    decreases |items|
  {
    if items == [] then [] else encode(items[0]) + EncodeMany(encode, items[1..])
  }

  function EncodeHeader(r: Receipt): ByteString {
    MAGIC + LittleEndian(VERSION, 4) + EncodeBytes(r.adminPath) + EncodeBytes(r.lockPath) + EncodeBytes(r.bootId)
  }

  function EncodeBody(r: Receipt): ByteString {
    EncodeLength(|r.values|) + EncodeMany(EncodeValue, r.values) + EncodeLength(|r.volatile|) + EncodeMany(EncodeBytes, r.volatile)
  }

  function EncodeRunning(r: Receipt): ByteString {
    EncodeLength(|r.identities|) + EncodeMany(EncodeIdentity, r.identities)
  }

  function Encode(r: Receipt): ByteString {
    EncodeHeader(r) + EncodeBody(r) + EncodeLength(r.kdamonds) + EncodeRunning(r)
  }

  /** Lengths and numbers fit their 64-bit fields, as they do in memory. */
  predicate Sized(r: Receipt) {
    && |r.adminPath| <= U64_MAX && |r.lockPath| <= U64_MAX && |r.bootId| <= U64_MAX
    && |r.values| <= U64_MAX && (forall v | v in r.values :: |v.path| <= U64_MAX && |v.value| <= U64_MAX)
    && |r.volatile| <= U64_MAX && (forall p | p in r.volatile :: |p| <= U64_MAX)
    && r.kdamonds <= U64_MAX && |r.identities| <= U64_MAX
    && forall i | i in r.identities :: i.index <= U64_MAX && i.pid <= U32_MAX
  }

  // ---------- what decoding computes, on the bytes that remain ----------

  datatype Step<+T> = Step(value: T, rest: ByteString)

  function Take(rest: ByteString, n: nat): Option<Step<ByteString>> {
    if n <= |rest| then Some(Step(rest[..n], rest[n..])) else None
  }

  function TakeNumber(rest: ByteString, width: nat): Option<Step<nat>> {
    match Take(rest, width)
    case None => None
    case Some(s) => Some(Step(Number(s.value), s.rest))
  }

  /** A count no larger than the number of bytes left. */
  function TakeCount(rest: ByteString): Option<Step<nat>> {
    match TakeNumber(rest, 8)
    case None => None
    case Some(s) => if s.value > |s.rest| then None else Some(s)
  }

  function TakeBytes(rest: ByteString): Option<Step<ByteString>> {
    match TakeCount(rest)
    case None => None
    case Some(s) => Take(s.rest, s.value)
  }

  function TakeValue(platform: Platform, rest: ByteString): Option<Step<WritableValue>> {
    match TakeBytes(rest)
    case None => None
    case Some(path) =>
      if !IsRelative(path.value) then None
      else
        match TakeBytes(path.rest)
        case None => None
        case Some(value) =>
          if !platform.isText(value.value) then None else Some(Step(WritableValue(path.value, value.value), value.rest))
  }

  function TakePath(rest: ByteString): Option<Step<ByteString>> {
    match TakeBytes(rest)
    case None => None
    case Some(path) => if IsRelative(path.value) then Some(path) else None
  }

  function TakeIdentity(rest: ByteString): Option<Step<Identity>> {
    match TakeNumber(rest, 8)
    case None => None
    case Some(index) =>
      match TakeNumber(index.rest, 4)
      case None => None
      case Some(pid) => Some(Step(Identity(index.value, pid.value), pid.rest))
  }

  /** `n` elements in a row. */
  function TakeMany<T>(take: ByteString -> Option<Step<T>>, rest: ByteString, n: nat): Option<Step<seq<T>>>
    decreases n
  {
    if n == 0 then Some(Step([], rest))
    else
      match take(rest)
      case None => None
      case Some(first) =>
        match TakeMany(take, first.rest, n - 1)
        case None => None
        case Some(others) => Some(Step([first.value] + others.value, others.rest))
  }

  // ---------- what the whole decoder computes ----------

  datatype Header = Header(adminPath: ByteString, lockPath: ByteString, bootId: ByteString)

  function TakeHeader(platform: Platform, rest: ByteString): Option<Step<Header>> {
    match Take(rest, |MAGIC|)
    case None => None
    case Some(magic) =>
      if magic.value != MAGIC then None
      else
        match TakeNumber(magic.rest, 4)
        case None => None
        case Some(version) =>
          if version.value != VERSION then None else TakeNames(platform, version.rest)
  }

  function TakeNames(platform: Platform, rest: ByteString): Option<Step<Header>> {
    match TakeBytes(rest)
    case None => None
    case Some(admin) =>
      match TakeBytes(admin.rest)
      case None => None
      case Some(lock) =>
        match TakeBytes(lock.rest)
        case None => None
        case Some(boot) =>
          if ValidHeader(platform, admin.value, lock.value, boot.value)
          then Some(Step(Header(admin.value, lock.value, boot.value), boot.rest)) else None
  }

  function ValueTaker(platform: Platform): ByteString -> Option<Step<WritableValue>> {
    (rest: ByteString) => TakeValue(platform, rest)
  }

  /** A count and that many elements. */
  function TakeList<T>(take: ByteString -> Option<Step<T>>, rest: ByteString): Option<Step<seq<T>>> {
    match TakeCount(rest)
    case None => None
    case Some(count) => TakeMany(take, count.rest, count.value)
  }

  datatype Body = Body(values: seq<WritableValue>, volatile: seq<ByteString>)

  function TakeBody(platform: Platform, rest: ByteString): Option<Step<Body>> {
    match TakeList(ValueTaker(platform), rest)
    case None => None
    case Some(values) =>
      match TakeList(TakePath, values.rest)
      case None => None
      case Some(volatile) => Some(Step(Body(values.value, volatile.value), volatile.rest))
  }

  datatype Running = Running(kdamonds: nat, identities: seq<Identity>)

  /** The kdamond count - checked against the bytes left like any other count - and the
      running identities, up to the very end. */
  ghost function TakeRunning(platform: Platform, body: Body, rest: ByteString): Option<Running> {
    match TakeCount(rest)
    case None => None
    case Some(count) =>
      if count.value == 0 || !ValidConfiguration(platform, body.values, body.volatile, count.value) then None
      else
        match TakeList(TakeIdentity, count.rest)
        case None => None
        case Some(identities) =>
          if ValidIdentities(identities.value, count.value) && identities.rest == [] then Some(Running(count.value, identities.value)) else None
  }

  ghost function Decode(platform: Platform, b: ByteString): Option<Receipt> {
    match TakeHeader(platform, b)
    case None => None
    case Some(header) =>
      match TakeBody(platform, header.rest)
      case None => None
      case Some(body) =>
        match TakeRunning(platform, body.value, body.rest)
        case None => None
        case Some(running) =>
          Some(Receipt(header.value.adminPath, header.value.lockPath, header.value.bootId,
                       body.value.values, body.value.volatile, running.kdamonds, running.identities))
  }

  // ---------- each step undoes one piece of the printer ----------

  lemma TakeNumberSound(rest: ByteString, width: nat)
    ensures TakeNumber(rest, width).Some? ==>
              var s := TakeNumber(rest, width).value;
              rest == LittleEndian(s.value, width) + s.rest && s.value < Power(width)
  {
    if width <= |rest| {
      LittleEndianOfNumber(rest[..width]);
      assert rest == rest[..width] + rest[width..];
    }
  }

  lemma TakeNumberComplete(n: nat, width: nat, rest: ByteString)
    requires n < Power(width)
    ensures TakeNumber(LittleEndian(n, width) + rest, width) == Some(Step(n, rest))
  {
    NumberOfLittleEndian(n, width);
    var b := LittleEndian(n, width);
    assert (b + rest)[..width] == b && (b + rest)[width..] == rest;
  }

  lemma TakeBytesSound(rest: ByteString)
    ensures TakeBytes(rest).Some? ==>
              var s := TakeBytes(rest).value;
              rest == EncodeBytes(s.value) + s.rest && |s.value| <= U64_MAX
  {
    TakeNumberSound(rest, 8);
    Widths();
    if TakeBytes(rest).Some? {
      var count := TakeCount(rest).value;
      assert count.rest == count.rest[..count.value] + count.rest[count.value..];
      assert rest == EncodeLength(count.value) + (count.rest[..count.value] + count.rest[count.value..]);
      assert rest == EncodeBytes(count.rest[..count.value]) + count.rest[count.value..];
    }
  }

  lemma TakeCountComplete(n: nat, rest: ByteString)
    requires n <= U64_MAX
    ensures TakeCount(EncodeLength(n) + rest) == if n <= |rest| then Some(Step(n, rest)) else None
  {
    Widths();
    TakeNumberComplete(n, 8, rest);
  }

  lemma TakeBytesComplete(b: ByteString, rest: ByteString)
    requires |b| <= U64_MAX
    ensures TakeBytes(EncodeBytes(b) + rest) == Some(Step(b, rest))
  {
    assert EncodeBytes(b) + rest == EncodeLength(|b|) + (b + rest);
    TakeCountComplete(|b|, b + rest);
    assert (b + rest)[..|b|] == b && (b + rest)[|b|..] == rest;
  }

  /** Taking and printing one element undo each other on the elements that satisfy `ok`. */
  ghost predicate Inverse<T(!new)>(take: ByteString -> Option<Step<T>>, encode: T -> ByteString, ok: T -> bool) {
    && (forall rest: ByteString | take(rest).Some? ::
          rest == encode(take(rest).value.value) + take(rest).value.rest && ok(take(rest).value.value))
    && (forall x: T, rest: ByteString | ok(x) :: take(encode(x) + rest) == Some(Step(x, rest)))
    && forall x: T :: encode(x) != []
  }

  lemma TakeOneSound<T(!new)>(take: ByteString -> Option<Step<T>>, encode: T -> ByteString, ok: T -> bool, rest: ByteString)
    requires Inverse(take, encode, ok) && take(rest).Some?
    ensures rest == encode(take(rest).value.value) + take(rest).value.rest && ok(take(rest).value.value)
  {
  }

  lemma {:induction false} TakeManySound<T(!new)>(take: ByteString -> Option<Step<T>>, encode: T -> ByteString, ok: T -> bool, rest: ByteString, n: nat)
    requires Inverse(take, encode, ok)
    ensures TakeMany(take, rest, n).Some? ==>
              var s := TakeMany(take, rest, n).value;
              |s.value| == n && rest == EncodeMany(encode, s.value) + s.rest && forall x | x in s.value :: ok(x)
    decreases n
  {
    hide Inverse;
    if n > 0 && TakeMany(take, rest, n).Some? {
      TakeOneSound(take, encode, ok, rest);
      var first := take(rest).value;
      TakeManySound(take, encode, ok, first.rest, n - 1);
      var others := TakeMany(take, first.rest, n - 1).value;
      var all := [first.value] + others.value;
      assert all[1..] == others.value;
      assert rest == encode(first.value) + (EncodeMany(encode, others.value) + others.rest);
    }
  }

  lemma {:induction false} TakeManyComplete<T(!new)>(take: ByteString -> Option<Step<T>>, encode: T -> ByteString, ok: T -> bool, items: seq<T>, rest: ByteString)
    requires Inverse(take, encode, ok) && forall x | x in items :: ok(x)
    ensures TakeMany(take, EncodeMany(encode, items) + rest, |items|) == Some(Step(items, rest))
    decreases |items|
  {
    if items == [] {
      assert EncodeMany(encode, items) + rest == rest;
    } else {
      var others := EncodeMany(encode, items[1..]) + rest;
      assert EncodeMany(encode, items) + rest == encode(items[0]) + others;
      assert ok(items[0]);
      TakeManyComplete(take, encode, ok, items[1..], rest);
      assert [items[0]] + items[1..] == items;
    }
  }

  /** No element prints as nothing, so a list's own count is never too large. */
  lemma {:induction false} ManyAreLong<T(!new)>(take: ByteString -> Option<Step<T>>, encode: T -> ByteString, ok: T -> bool, items: seq<T>)
    requires Inverse(take, encode, ok)
    ensures |items| <= |EncodeMany(encode, items)|
    decreases |items|
  {
    if items != [] { ManyAreLong(take, encode, ok, items[1..]); }
  }

  lemma TakeCountSound(rest: ByteString)
    ensures TakeCount(rest).Some? ==>
              var s := TakeCount(rest).value;
              rest == EncodeLength(s.value) + s.rest && s.value <= U64_MAX
  {
    TakeNumberSound(rest, 8);
    Widths();
  }

  lemma TakeListSound<T(!new)>(take: ByteString -> Option<Step<T>>, encode: T -> ByteString, ok: T -> bool, rest: ByteString)
    requires Inverse(take, encode, ok)
    ensures TakeList(take, rest).Some? ==>
              var s := TakeList(take, rest).value;
              && rest == EncodeLength(|s.value|) + EncodeMany(encode, s.value) + s.rest
              && |s.value| <= U64_MAX && forall x | x in s.value :: ok(x)
  {
    hide Inverse, TakeMany, EncodeMany, EncodeLength, TakeCount;
    if TakeList(take, rest).Some? {
      TakeCountSound(rest);
      var count := TakeCount(rest).value;
      TakeManySound(take, encode, ok, count.rest, count.value);
      var s := TakeMany(take, count.rest, count.value).value;
      var printed := EncodeMany(encode, s.value);
      assert rest == EncodeLength(|s.value|) + (printed + s.rest);
    }
  }

  lemma TakeListComplete<T(!new)>(take: ByteString -> Option<Step<T>>, encode: T -> ByteString, ok: T -> bool, items: seq<T>, rest: ByteString)
    requires Inverse(take, encode, ok) && |items| <= U64_MAX && forall x | x in items :: ok(x)
    ensures TakeList(take, EncodeLength(|items|) + EncodeMany(encode, items) + rest) == Some(Step(items, rest))
  {
    hide Inverse, TakeMany, EncodeMany, EncodeLength, TakeCount;
    var printed := EncodeMany(encode, items);
    ManyAreLong(take, encode, ok, items);
    TakeCountComplete(|items|, printed + rest);
    TakeManyComplete(take, encode, ok, items, rest);
    assert EncodeLength(|items|) + printed + rest == EncodeLength(|items|) + (printed + rest);
  }

  function ValueOk(platform: Platform): WritableValue -> bool {
    v => ValidValue(platform, v) && |v.path| <= U64_MAX && |v.value| <= U64_MAX
  }

  predicate PathOk(p: ByteString) {
    IsRelative(p) && |p| <= U64_MAX
  }

  predicate IdentityOk(i: Identity) {
    i.index <= U64_MAX && i.pid <= U32_MAX
  }

  lemma ValueSound(platform: Platform, rest: ByteString)
    requires TakeValue(platform, rest).Some?
    ensures var s := TakeValue(platform, rest).value;
            rest == EncodeValue(s.value) + s.rest && ValidValue(platform, s.value) && |s.value.path| <= U64_MAX && |s.value.value| <= U64_MAX
  {
    hide EncodeBytes, TakeBytes, IsRelative;
    var path := TakeBytes(rest).value;
    var value := TakeBytes(path.rest).value;
    TakeBytesSound(rest);
    TakeBytesSound(path.rest);
    var p, v := EncodeBytes(path.value), EncodeBytes(value.value);
    assert rest == p + (v + value.rest);
  }

  lemma ValueComplete(platform: Platform, v: WritableValue, rest: ByteString)
    requires ValidValue(platform, v) && |v.path| <= U64_MAX && |v.value| <= U64_MAX
    ensures TakeValue(platform, EncodeValue(v) + rest) == Some(Step(v, rest))
  {
    hide EncodeBytes, TakeBytes, IsRelative;
    assert EncodeValue(v) + rest == EncodeBytes(v.path) + (EncodeBytes(v.value) + rest);
    TakeBytesComplete(v.path, EncodeBytes(v.value) + rest);
    TakeBytesComplete(v.value, rest);
  }

  lemma ValuesInvert(platform: Platform)
    ensures Inverse(ValueTaker(platform), EncodeValue, ValueOk(platform))
  {
    forall rest: ByteString | TakeValue(platform, rest).Some?
      ensures rest == EncodeValue(TakeValue(platform, rest).value.value) + TakeValue(platform, rest).value.rest
              && ValueOk(platform)(TakeValue(platform, rest).value.value)
    {
      ValueSound(platform, rest);
    }
    forall v: WritableValue, rest: ByteString | ValueOk(platform)(v)
      ensures TakeValue(platform, EncodeValue(v) + rest) == Some(Step(v, rest))
    {
      ValueComplete(platform, v, rest);
    }
    forall v: WritableValue ensures EncodeValue(v) != [] {
      EncodeLengthIs(|v.path|);
    }
    hide TakeValue, EncodeValue, ValidValue;
  }

  lemma PathsInvert()
    ensures Inverse(TakePath, EncodeBytes, PathOk)
  {
    forall rest: ByteString | TakePath(rest).Some?
      ensures rest == EncodeBytes(TakePath(rest).value.value) + TakePath(rest).value.rest && PathOk(TakePath(rest).value.value)
    {
      TakeBytesSound(rest);
    }
    forall p: ByteString, rest: ByteString | PathOk(p) ensures TakePath(EncodeBytes(p) + rest) == Some(Step(p, rest)) {
      TakeBytesComplete(p, rest);
    }
  }

  lemma IdentitiesInvert()
    ensures Inverse(TakeIdentity, EncodeIdentity, IdentityOk)
  {
    Widths();
    forall rest: ByteString | TakeIdentity(rest).Some?
      ensures rest == EncodeIdentity(TakeIdentity(rest).value.value) + TakeIdentity(rest).value.rest
              && IdentityOk(TakeIdentity(rest).value.value)
    {
      var index := TakeNumber(rest, 8).value;
      TakeNumberSound(rest, 8);
      TakeNumberSound(index.rest, 4);
    }
    forall i: Identity, rest: ByteString | IdentityOk(i) ensures TakeIdentity(EncodeIdentity(i) + rest) == Some(Step(i, rest)) {
      assert EncodeIdentity(i) + rest == LittleEndian(i.index, 8) + (LittleEndian(i.pid, 4) + rest);
      TakeNumberComplete(i.index, 8, LittleEndian(i.pid, 4) + rest);
      TakeNumberComplete(i.pid, 4, rest);
    }
  }

  // ---------- the three parts of a receipt ----------

  lemma HeaderSound(platform: Platform, b: ByteString)
    ensures TakeHeader(platform, b).Some? ==>
              var s := TakeHeader(platform, b).value;
              && b == EncodeNames(s.value) + s.rest
              && ValidHeader(platform, s.value.adminPath, s.value.lockPath, s.value.bootId)
              && |s.value.adminPath| <= U64_MAX && |s.value.lockPath| <= U64_MAX && |s.value.bootId| <= U64_MAX
  {
    hide LittleEndian, Number, EncodeBytes, TakeBytes, ValidHeader, TakeNumber;
    if TakeHeader(platform, b).Some? {
      var magic := Take(b, |MAGIC|).value;
      assert b == MAGIC + magic.rest;
      TakeNumberSound(magic.rest, 4);
      var version := TakeNumber(magic.rest, 4).value;
      NamesSound(platform, version.rest);
      var s := TakeNames(platform, version.rest).value;
      var names := EncodeBytes(s.value.adminPath) + EncodeBytes(s.value.lockPath) + EncodeBytes(s.value.bootId);
      assert b == MAGIC + (LittleEndian(VERSION, 4) + (names + s.rest));
      assert b == MAGIC + LittleEndian(VERSION, 4) + names + s.rest;
    }
  }

  function EncodeNames(h: Header): ByteString {
    MAGIC + LittleEndian(VERSION, 4) + (EncodeBytes(h.adminPath) + EncodeBytes(h.lockPath) + EncodeBytes(h.bootId))
  }

  lemma NamesSound(platform: Platform, rest: ByteString)
    ensures TakeNames(platform, rest).Some? ==>
              var s := TakeNames(platform, rest).value;
              && rest == EncodeBytes(s.value.adminPath) + EncodeBytes(s.value.lockPath) + EncodeBytes(s.value.bootId) + s.rest
              && ValidHeader(platform, s.value.adminPath, s.value.lockPath, s.value.bootId)
              && |s.value.adminPath| <= U64_MAX && |s.value.lockPath| <= U64_MAX && |s.value.bootId| <= U64_MAX
  {
    hide EncodeBytes, TakeBytes, ValidHeader;
    if TakeNames(platform, rest).Some? {
      TakeBytesSound(rest);
      var admin := TakeBytes(rest).value;
      TakeBytesSound(admin.rest);
      var lock := TakeBytes(admin.rest).value;
      TakeBytesSound(lock.rest);
      var boot := TakeBytes(lock.rest).value;
      var a, l, c := EncodeBytes(admin.value), EncodeBytes(lock.value), EncodeBytes(boot.value);
      assert rest == a + (l + (c + boot.rest));
      assert rest == a + l + c + boot.rest;
    }
  }

  lemma HeaderComplete(platform: Platform, h: Header, rest: ByteString)
    requires ValidHeader(platform, h.adminPath, h.lockPath, h.bootId)
    requires |h.adminPath| <= U64_MAX && |h.lockPath| <= U64_MAX && |h.bootId| <= U64_MAX
    ensures TakeHeader(platform, EncodeNames(h) + rest) == Some(Step(h, rest))
  {
    hide LittleEndian, Number, EncodeBytes, TakeBytes, ValidHeader, TakeNumber;
    var a, l, c := EncodeBytes(h.adminPath), EncodeBytes(h.lockPath), EncodeBytes(h.bootId);
    var version := LittleEndian(VERSION, 4);
    var b := EncodeNames(h) + rest;
    assert b == MAGIC + (version + (a + (l + (c + rest))));
    assert b[..|MAGIC|] == MAGIC && b[|MAGIC|..] == version + (a + (l + (c + rest)));
    Widths();
    TakeNumberComplete(VERSION, 4, a + (l + (c + rest)));
    TakeBytesComplete(h.adminPath, l + (c + rest));
    TakeBytesComplete(h.lockPath, c + rest);
    TakeBytesComplete(h.bootId, rest);
  }

  function EncodeBoth(body: Body): ByteString {
    EncodeLength(|body.values|) + EncodeMany(EncodeValue, body.values) + EncodeLength(|body.volatile|) + EncodeMany(EncodeBytes, body.volatile)
  }

  predicate BodyOk(platform: Platform, body: Body) {
    && |body.values| <= U64_MAX && (forall v | v in body.values :: ValueOk(platform)(v))
    && |body.volatile| <= U64_MAX && forall p | p in body.volatile :: PathOk(p)
  }

  lemma BodySound(platform: Platform, rest: ByteString)
    ensures TakeBody(platform, rest).Some? ==>
              var s := TakeBody(platform, rest).value;
              rest == EncodeBoth(s.value) + s.rest && BodyOk(platform, s.value)
  {
    hide TakeList, EncodeMany, EncodeLength, Inverse;
    if TakeBody(platform, rest).Some? {
      ValuesInvert(platform);
      PathsInvert();
      TakeListSound(ValueTaker(platform), EncodeValue, ValueOk(platform), rest);
      var values := TakeList(ValueTaker(platform), rest).value;
      TakeListSound(TakePath, EncodeBytes, PathOk, values.rest);
      var volatile := TakeList(TakePath, values.rest).value;
      var first := EncodeLength(|values.value|) + EncodeMany(EncodeValue, values.value);
      var second := EncodeLength(|volatile.value|) + EncodeMany(EncodeBytes, volatile.value);
      assert rest == first + (second + volatile.rest);
      assert first + second == EncodeBoth(Body(values.value, volatile.value));
      assert rest == first + second + volatile.rest;
    }
  }

  lemma BodyComplete(platform: Platform, body: Body, rest: ByteString)
    requires BodyOk(platform, body)
    ensures TakeBody(platform, EncodeBoth(body) + rest) == Some(Step(body, rest))
  {
    hide TakeList, EncodeMany, EncodeLength, Inverse;
    ValuesInvert(platform);
    PathsInvert();
    var first := EncodeLength(|body.values|) + EncodeMany(EncodeValue, body.values);
    var second := EncodeLength(|body.volatile|) + EncodeMany(EncodeBytes, body.volatile);
    assert EncodeBoth(body) + rest == first + (second + rest);
    TakeListComplete(ValueTaker(platform), EncodeValue, ValueOk(platform), body.values, second + rest);
    TakeListComplete(TakePath, EncodeBytes, PathOk, body.volatile, rest);
  }

  function EncodeTail(running: Running): ByteString {
    EncodeLength(running.kdamonds) + (EncodeLength(|running.identities|) + EncodeMany(EncodeIdentity, running.identities))
  }

  lemma {:induction false} IdentitiesLength(identities: seq<Identity>)
    ensures |EncodeMany(EncodeIdentity, identities)| == 12 * |identities|
    decreases |identities|
  {
    if identities != [] { IdentitiesLength(identities[1..]); }
  }

  ghost predicate RunningOk(platform: Platform, body: Body, running: Running) {
    && 0 < running.kdamonds <= U64_MAX && |running.identities| <= U64_MAX
    && ValidConfiguration(platform, body.values, body.volatile, running.kdamonds)
    && ValidIdentities(running.identities, running.kdamonds)
  }

  lemma RunningSound(platform: Platform, body: Body, rest: ByteString)
    ensures TakeRunning(platform, body, rest).Some? ==>
              var running := TakeRunning(platform, body, rest).value;
              && rest == EncodeTail(running) && RunningOk(platform, body, running)
              && running.kdamonds <= 8 + 12 * |running.identities|
  {
    hide EncodeMany, EncodeLength, Inverse, ValidConfiguration, ValidIdentities, TakeMany;
    if TakeRunning(platform, body, rest).Some? {
      var running := TakeRunning(platform, body, rest).value;
      TakeNumberSound(rest, 8);
      Widths();
      var count := TakeCount(rest).value;
      assert rest == EncodeLength(count.value) + count.rest by { EncodeLengthIs(count.value); }
      IdentitiesInvert();
      TakeListSound(TakeIdentity, EncodeIdentity, IdentityOk, count.rest);
      IdentitiesLength(running.identities);
      EncodeLengthIs(|running.identities|);
      assert count.rest == EncodeLength(|running.identities|) + EncodeMany(EncodeIdentity, running.identities);
    }
  }

  lemma EncodeLengthIs(n: nat)
    ensures EncodeLength(n) == LittleEndian(n, 8) && |EncodeLength(n)| == 8
  {
  }

  /** Otherwise acceptable, the tail decodes exactly when the kdamond count does not exceed
      the bytes that follow it. */
  lemma RunningComplete(platform: Platform, body: Body, running: Running)
    requires RunningOk(platform, body, running)
    ensures TakeRunning(platform, body, EncodeTail(running)) ==
              if running.kdamonds <= 8 + 12 * |running.identities| then Some(running) else None
  {
    hide EncodeMany, EncodeLength, Inverse, ValidConfiguration, TakeList, TakeCount;
    var list := EncodeLength(|running.identities|) + EncodeMany(EncodeIdentity, running.identities);
    IdentitiesLength(running.identities);
    EncodeLengthIs(|running.identities|);
    TakeCountComplete(running.kdamonds, list);
    if running.kdamonds <= |list| {
      IdentitiesInvert();
      TakeListComplete(TakeIdentity, EncodeIdentity, IdentityOk, running.identities, []);
      assert list + [] == list;
    }
  }

  // ---------- main results ----------

  lemma EncodeParts(r: Receipt)
    ensures Encode(r) == EncodeNames(Header(r.adminPath, r.lockPath, r.bootId))
                         + (EncodeBoth(Body(r.values, r.volatile)) + EncodeTail(Running(r.kdamonds, r.identities)))
  {
    hide EncodeMany, EncodeLength, EncodeBytes, LittleEndian;
    var names := EncodeNames(Header(r.adminPath, r.lockPath, r.bootId));
    var both := EncodeBoth(Body(r.values, r.volatile));
    assert EncodeHeader(r) == names;
    assert EncodeBody(r) == both;
    assert Encode(r) == names + both + EncodeLength(r.kdamonds) + EncodeRunning(r);
    assert names + both + EncodeLength(r.kdamonds) + EncodeRunning(r) == names + (both + (EncodeLength(r.kdamonds) + EncodeRunning(r)));
  }

  /** Whatever decodes was printed: the decoded receipt is acceptable and prints as exactly
      the bytes it came from. */
  lemma DecodedPrintsBack(platform: Platform, b: ByteString)
    ensures Decode(platform, b).Some? ==>
              var r := Decode(platform, b).value;
              && Encode(r) == b && ValidReceipt(platform, r) && Sized(r)
              && r.kdamonds <= 8 + 12 * |r.identities|
  {
    hide EncodeNames, EncodeBoth, EncodeTail, TakeHeader, TakeBody, TakeRunning, Encode, ValidConfiguration,
         ValidHeader;
    if Decode(platform, b).Some? {
      var r := Decode(platform, b).value;
      HeaderSound(platform, b);
      var header := TakeHeader(platform, b).value;
      BodySound(platform, header.rest);
      var body := TakeBody(platform, header.rest).value;
      RunningSound(platform, body.value, body.rest);
      EncodeParts(r);
      assert forall v | v in r.values :: ValueOk(platform)(v);
    }
  }

  /** An acceptable receipt decodes back to itself exactly when its kdamond count is at most
      eight plus twelve for each running identity: the count is checked against the bytes
      left, although no per-kdamond data follows it. */
  lemma RoundTrip(platform: Platform, r: Receipt)
    requires ValidReceipt(platform, r) && Sized(r)
    ensures Decode(platform, Encode(r)) == if r.kdamonds <= 8 + 12 * |r.identities| then Some(r) else None
  {
    hide EncodeNames, EncodeBoth, EncodeTail, TakeHeader, TakeBody, TakeRunning, Encode, ValidConfiguration,
         ValidHeader;
    var header, body, running := Header(r.adminPath, r.lockPath, r.bootId), Body(r.values, r.volatile), Running(r.kdamonds, r.identities);
    assert forall v | v in r.values :: ValueOk(platform)(v);
    EncodeParts(r);
    HeaderComplete(platform, header, EncodeBoth(body) + EncodeTail(running));
    BodyComplete(platform, body, EncodeTail(running));
    RunningComplete(platform, body, running);
  }

  /** No accepted byte string is a proper prefix of another. */
  lemma PrefixFreedom(platform: Platform, b: ByteString, more: ByteString)
    requires Decode(platform, b).Some? && Decode(platform, b + more).Some?
    ensures more == []
  {
    hide EncodeNames, EncodeBoth, EncodeTail, TakeHeader, TakeBody, TakeRunning, Encode, ValidReceipt, Sized;
    DecodedPrintsBack(platform, b);
    var r := Decode(platform, b).value;
    OnlyTheTailDiffers(platform, r, more);
  }

  /** Appending to a printed receipt changes nothing but the bytes left at the end. */
  lemma OnlyTheTailDiffers(platform: Platform, r: Receipt, more: ByteString)
    requires ValidReceipt(platform, r) && Sized(r) && Decode(platform, Encode(r) + more).Some?
    ensures more == []
  {
    hide EncodeNames, EncodeBoth, EncodeTail, TakeHeader, TakeBody, TakeRunning, Encode, ValidConfiguration,
         ValidHeader;
    var header, body, running := Header(r.adminPath, r.lockPath, r.bootId), Body(r.values, r.volatile), Running(r.kdamonds, r.identities);
    assert forall v | v in r.values :: ValueOk(platform)(v);
    EncodeParts(r);
    var tail := EncodeTail(running) + more;
    assert Encode(r) + more == EncodeNames(header) + (EncodeBoth(body) + tail);
    HeaderComplete(platform, header, EncodeBoth(body) + tail);
    BodyComplete(platform, body, tail);
    TailIsExact(platform, body, running, more);
  }

  lemma TailIsExact(platform: Platform, body: Body, running: Running, more: ByteString)
    requires RunningOk(platform, body, running) && TakeRunning(platform, body, EncodeTail(running) + more).Some?
    ensures more == []
  {
    hide EncodeMany, EncodeLength, Inverse, ValidConfiguration, TakeList, TakeCount, TakeMany;
    var printed := EncodeLength(|running.identities|) + EncodeMany(EncodeIdentity, running.identities);
    assert EncodeTail(running) + more == EncodeLength(running.kdamonds) + (printed + more);
    TakeCountComplete(running.kdamonds, printed + more);
    IdentitiesInvert();
    TakeListComplete(TakeIdentity, EncodeIdentity, IdentityOk, running.identities, more);
  }

  const ZERO_BOOT_ID: ByteString := "00000000-0000-0000-0000-000000000000"
  const COUNT_TEXT: ByteString := "kdamonds/nr_kdamonds"
  const NINE_STOPPED: Receipt := Receipt("/sys", "/run", ZERO_BOOT_ID, [WritableValue(COUNT_TEXT, "9")], [], 9, [])

  lemma TwoNames(first: string, second: string)
    requires first != "" && second != "" && first[0] != '.' && second[0] != '.' && first[0] != '/'
    requires '/' !in first && '/' !in second && '\0' !in first && '\0' !in second
    ensures Components(first + "/" + second) == [first, second] && IsRelative(first + "/" + second)
  {
    PiecesOfJoin(first, second);
    PiecesOfName(second);
    hide Pieces;
    var pieces := [first] + [second];
    assert Pieces(first + "/" + second) == pieces && pieces[1..] == [second];
    assert Names([second]) == [second];
  }

  lemma CountTextIsCountPath()
    ensures Components(COUNT_TEXT) == COUNT_PATH && IsRelative(COUNT_TEXT)
  {
    hide Components, IsRelative;
    TwoNames("kdamonds", "nr_kdamonds");
    assert COUNT_TEXT == "kdamonds" + "/" + "nr_kdamonds";
  }

  lemma NineStoppedConfiguration(platform: Platform)
    requires platform.number("9") == Some(9)
    ensures ValidConfiguration(platform, NINE_STOPPED.values, NINE_STOPPED.volatile, 9)
  {
    CountTextIsCountPath();
    hide Components, IsRelative;
    var entries := Entries(NINE_STOPPED.values);
    var e := Entry(COUNT_PATH, "9");
    assert entries[0] == e;
    assert entries == [e] && e in entries;
    assert PathList(NINE_STOPPED.volatile) == [];
    assert TunedIntervals(platform, COUNT_PATH, 9).None?;
    assert ExpectedVolatile(platform, entries, 9) == {};
    assert Elements([]) == {};
  }

  /** Nine stopped kdamonds make an acceptable receipt that, once printed, cannot be read again. */
  lemma NineStoppedKdamonds(platform: Platform)
    requires platform.number("9") == Some(9) && platform.isText("9") && platform.isText(ZERO_BOOT_ID)
    ensures ValidReceipt(platform, NINE_STOPPED) && Sized(NINE_STOPPED) && Decode(platform, Encode(NINE_STOPPED)).None?
  {
    hide Components, IsRelative, ValidConfiguration, Decode, Encode, ValidHeader;
    CountTextIsCountPath();
    NineStoppedConfiguration(platform);
    NineStoppedHeader(platform);
    RoundTrip(platform, NINE_STOPPED);
  }

  lemma NineStoppedHeader(platform: Platform)
    requires platform.isText(ZERO_BOOT_ID)
    ensures ValidHeader(platform, NINE_STOPPED.adminPath, NINE_STOPPED.lockPath, NINE_STOPPED.bootId)
  {
  }

  // ---------- the layout, byte by byte ----------

  /** One of three kdamonds running, with a receipt of one value and one volatile leaf. */
  const ONE_RUNNING: Receipt :=
    Receipt("/a", "/lock", ZERO_BOOT_ID, [WritableValue("p/q", "5")], ["p/v"], 3, [Identity(2, 258)])

  function Bytes(numbers: seq<nat>): (b: ByteString)
    requires forall i | 0 <= i < |numbers| :: numbers[i] < 256
    ensures |b| == |numbers| && forall i | 0 <= i < |b| :: b[i] as int == numbers[i]
  {
    seq(|numbers|, i requires 0 <= i < |numbers| && numbers[i] < 256 => numbers[i] as Byte)
  }

  lemma {:induction false} Zeros(width: nat)
    ensures forall i | 0 <= i < width :: LittleEndian(0, width)[i] as int == 0
    decreases width
  {
    if width > 0 { Zeros(width - 1); }
  }

  lemma SmallDigits(n: nat, width: nat)
    requires n < 256 && width > 0
    ensures LittleEndian(n, width)[0] as int == n && forall i | 1 <= i < width :: LittleEndian(n, width)[i] as int == 0
  {
    Zeros(width - 1);
  }

  lemma SmallNumber(n: nat)
    requires n < 256
    ensures LittleEndian(n, 8) == Bytes([n, 0, 0, 0, 0, 0, 0, 0])
  {
    SmallDigits(n, 8);
    var b := Bytes([n, 0, 0, 0, 0, 0, 0, 0]);
    hide LittleEndian;
    assert b[0] as int == n && forall i | 1 <= i < 8 :: b[i] as int == 0;
    hide Bytes;
  }

  lemma VersionBytes()
    ensures LittleEndian(1, 4) == Bytes([1, 0, 0, 0])
  {
    SmallDigits(1, 4);
    var b := Bytes([1, 0, 0, 0]);
    hide LittleEndian;
    assert b[0] as int == 1 && forall i | 1 <= i < 4 :: b[i] as int == 0;
    hide Bytes;
  }

  lemma PidBytes()
    ensures LittleEndian(258, 4) == Bytes([2, 1, 0, 0])
  {
    assert LittleEndian(258, 4) == [2 as Byte] + ([1 as Byte] + LittleEndian(0, 2));
    assert LittleEndian(0, 2) == [0 as Byte] + ([0 as Byte] + LittleEndian(0, 0));
  }

  function PrintedHeader(): ByteString {
    "DAMONR01" + Bytes([1, 0, 0, 0])
    + (Bytes([2, 0, 0, 0, 0, 0, 0, 0]) + "/a")
    + (Bytes([5, 0, 0, 0, 0, 0, 0, 0]) + "/lock")
    + (Bytes([36, 0, 0, 0, 0, 0, 0, 0]) + "00000000-0000-0000-0000-000000000000")
  }

  function PrintedBody(): ByteString {
    Bytes([1, 0, 0, 0, 0, 0, 0, 0])
    + ((Bytes([3, 0, 0, 0, 0, 0, 0, 0]) + "p/q") + (Bytes([1, 0, 0, 0, 0, 0, 0, 0]) + "5"))
    + Bytes([1, 0, 0, 0, 0, 0, 0, 0])
    + (Bytes([3, 0, 0, 0, 0, 0, 0, 0]) + "p/v")
  }

  function PrintedRunning(): ByteString {
    Bytes([1, 0, 0, 0, 0, 0, 0, 0]) + (Bytes([2, 0, 0, 0, 0, 0, 0, 0]) + Bytes([2, 1, 0, 0]))
  }

  lemma {:induction false} PrintedOne<T>(encode: T -> ByteString, item: T)
    ensures EncodeMany(encode, [item]) == encode(item)
  {
    assert [item][1..] == [];
    assert EncodeMany(encode, [item][1..]) == [];
  }

  lemma PrintedParts()
    ensures EncodeHeader(ONE_RUNNING) == PrintedHeader()
    ensures EncodeBody(ONE_RUNNING) == PrintedBody()
    ensures EncodeRunning(ONE_RUNNING) == PrintedRunning()
  {
    SmallNumber(1);
    SmallNumber(2);
    SmallNumber(3);
    SmallNumber(5);
    SmallNumber(36);
    VersionBytes();
    PidBytes();
    PrintedOne(EncodeValue, ONE_RUNNING.values[0]);
    PrintedOne(EncodeBytes, ONE_RUNNING.volatile[0]);
    PrintedOne(EncodeIdentity, ONE_RUNNING.identities[0]);
    hide LittleEndian, Bytes, EncodeMany;
    assert MAGIC == "DAMONR01";
    assert |"/a"| == 2 && |"/lock"| == 5 && |ZERO_BOOT_ID| == 36 && |"p/q"| == 3 && |"p/v"| == 3 && |"5"| == 1;
  }

  /** Magic, version 1 in four bytes, three lengths with their texts, counted values and
      volatile paths, the kdamond count, and each identity as its index in eight bytes followed
      by its pid in four. */
  lemma PrintedLayout()
    ensures Encode(ONE_RUNNING) == PrintedHeader() + PrintedBody() + Bytes([3, 0, 0, 0, 0, 0, 0, 0]) + PrintedRunning()
  {
    PrintedParts();
    SmallNumber(3);
    hide PrintedHeader, PrintedBody, PrintedRunning, EncodeHeader, EncodeBody, EncodeRunning;
  }
}
