/**
 * The snapshot format of snapshot.go: printer, parser, size limit and decompression budget. The codecs
 * at the bottom of a stack, gzip, AES-GCM and the CRC are functions of an environment.
 */
module Snapshot {
  import opened Prelude

  type Byte = x: int | 0 <= x < 256

  type Bytes = seq<Byte>

  type Item(==, !new) // a key or value as the codec sees it

  type CipherKey(==, !new)

  datatype Error = FieldTooBig | TooManyTags | TooLarge | PastEnd | UnexpectedEnd | Incompatible | Corrupt | CodecFailed

  datatype Outcome<+T> = Ok(value: T) | Fail(error: Error) {
    predicate IsFailure() { Fail? }

    function PropagateFailure<U>(): Outcome<U>
      requires Fail?
    {
      Fail(error)
    }

    function Extract(): T
      requires Ok?
    {
      value
    }
  }

  // -- Numbers ------------------------------------------------------------------------------------

  function Pow256(n: nat): nat {
    if n == 0 then 1 else 256 * Pow256(n - 1)
  }

  // v in n bytes, least significant first, before rest.
  function PutNum(n: nat, v: nat, rest: Bytes): Bytes {
    if n == 0 then rest else [v % 256] + PutNum(n - 1, v / 256, rest)
  }

  function Num(b: Bytes): nat {
    if b == [] then 0 else b[0] + 256 * Num(b[1..])
  }

  const TWO63 := 9223372036854775808

  const MAX_INT64 := 9223372036854775807

  predicate Int64(v: int) { -TWO63 <= v < TWO63 }

  function Unsigned(v: int): int { if v < 0 then v + 2 * TWO63 else v }

  function Signed(u: int): int { if u >= TWO63 then u - 2 * TWO63 else u }

  // -- Fields -------------------------------------------------------------------------------------

  const FIELD_MAX := 2147483647

  function PutBlob(b: Bytes, rest: Bytes): Bytes {
    PutNum(4, |b|, b + rest)
  }

  function PutInt64(v: int, rest: Bytes): Bytes
    requires Int64(v)
  {
    PutNum(8, Unsigned(v), rest)
  }

  function PutBlobs(bs: seq<Bytes>, rest: Bytes): Bytes {
    if bs == [] then rest else PutBlob(bs[0], PutBlobs(bs[1..], rest))
  }

  // -- The reader: what is left of the input, and how many more bytes it may take ------------------

  datatype In = In(s: Bytes, left: int)

  // A read takes what it uses from the input and the limit alike, and never more than the limit.
  predicate Consumed(i: In, j: In) {
    |j.s| <= |i.s| && j.left == i.left - (|i.s| - |j.s|) && (i.left >= 0 ==> j.left >= 0)
  }

  function Take(i: In, n: nat): (r: Outcome<(Bytes, In)>)
    ensures r.Ok? ==> Consumed(i, r.value.1)
  {
    if n > i.left then Fail(PastEnd)
    else if n > |i.s| then Fail(UnexpectedEnd)
    else Ok((i.s[..n], In(i.s[n..], i.left - n)))
  }

  function GetNum(i: In, n: nat): (r: Outcome<(nat, In)>)
    ensures r.Ok? ==> Consumed(i, r.value.1)
  {
    var (b, i) :- Take(i, n);
    Ok((Num(b), i))
  }

  function GetInt64(i: In): (r: Outcome<(int, In)>)
    ensures r.Ok? ==> Consumed(i, r.value.1)
  {
    var (u, i) :- GetNum(i, 8);
    Ok((Signed(u), i))
  }

  function GetBlob(i: In): (r: Outcome<(Bytes, In)>)
    ensures r.Ok? ==> Consumed(i, r.value.1)
  {
    var (n, i) :- GetNum(i, 4);
    Take(i, n)
  }

  function GetBlobs(i: In, n: nat): (r: Outcome<(seq<Bytes>, In)>)
    ensures r.Ok? ==> Consumed(i, r.value.1)
    decreases n
  {
    if n == 0 then Ok(([], i))
    else
      var (b, i) :- GetBlob(i);
      var (bs, i) :- GetBlobs(i, n - 1);
      Ok(([b] + bs, i))
  }

  lemma {:induction false} PutNumTakes(n: nat, v: nat, rest: Bytes)
    requires v < Pow256(n)
    ensures |PutNum(n, v, rest)| == n + |rest| && PutNum(n, v, rest)[n..] == rest && Num(PutNum(n, v, rest)[..n]) == v
  {
    if n > 0 {
      PutNumTakes(n - 1, v / 256, rest);
      var s := PutNum(n, v, rest);
      assert s[1..] == PutNum(n - 1, v / 256, rest);
      assert s[..n][1..] == s[1..][..n - 1];
      assert s[n..] == s[1..][n - 1..];
    }
  }

  lemma Powers()
    ensures Pow256(1) == 256 && Pow256(2) == 65536 && Pow256(4) == 4294967296 && Pow256(8) == 2 * TWO63
  {
    assert Pow256(1) == 256 * Pow256(0);
    assert Pow256(2) == 256 * Pow256(1);
    assert Pow256(3) == 256 * Pow256(2);
    assert Pow256(4) == 256 * Pow256(3);
    assert Pow256(5) == 256 * Pow256(4);
    assert Pow256(6) == 256 * Pow256(5);
    assert Pow256(7) == 256 * Pow256(6);
    assert Pow256(8) == 256 * Pow256(7);
  }

  lemma NumReads(n: nat, v: nat, rest: Bytes, left: int)
    requires v < Pow256(n) && n <= left
    ensures GetNum(In(PutNum(n, v, rest), left), n) == Ok((v, In(rest, left - n)))
  {
    PutNumTakes(n, v, rest);
  }

  lemma Int64Reads(v: int, rest: Bytes, left: int)
    requires Int64(v) && 8 <= left
    ensures GetInt64(In(PutInt64(v, rest), left)) == Ok((v, In(rest, left - 8)))
  {
    Powers();
    NumReads(8, Unsigned(v), rest, left);
  }

  lemma BlobReads(b: Bytes, rest: Bytes, left: int)
    requires |b| <= FIELD_MAX && 4 + |b| <= left
    ensures GetBlob(In(PutBlob(b, rest), left)) == Ok((b, In(rest, left - 4 - |b|)))
  {
    Powers();
    NumReads(4, |b|, b + rest, left);
    assert (b + rest)[..|b|] == b && (b + rest)[|b|..] == rest;
  }

  function BlobsSize(bs: seq<Bytes>): nat {
    if bs == [] then 0 else 4 + |bs[0]| + BlobsSize(bs[1..])
  }

  predicate BlobsFit(bs: seq<Bytes>) {
    forall i :: 0 <= i < |bs| ==> |bs[i]| <= FIELD_MAX
  }

  lemma {:induction false} BlobsRead(bs: seq<Bytes>, rest: Bytes, left: int)
    requires BlobsFit(bs) && BlobsSize(bs) <= left
    ensures GetBlobs(In(PutBlobs(bs, rest), left), |bs|) == Ok((bs, In(rest, left - BlobsSize(bs))))
  {
    if bs != [] {
      hide GetBlob, PutBlob;
      BlobReads(bs[0], PutBlobs(bs[1..], rest), left);
      BlobsRead(bs[1..], rest, left - 4 - |bs[0]|);
      assert [bs[0]] + bs[1..] == bs;
    }
  }

  // -- Codecs -------------------------------------------------------------------------------------

  datatype Codec = Base(name: Bytes) | Compressed(base: Codec) | Encrypted(base: Codec, key: CipherKey)

  // The functions outside the model. seal takes the index of the nonce it draws.
  datatype Env = Env(
    marshal: (Bytes, Item) -> Option<Bytes>, unmarshal: (Bytes, Bytes) -> Option<Item>,
    gzip: Bytes -> Bytes, gunzip: Bytes -> Option<Bytes>,
    seal: (CipherKey, nat, Bytes, Bytes) -> Option<Bytes>, open: (CipherKey, Bytes, Bytes) -> Option<Bytes>,
    crc: Bytes -> nat)

  // Each inverse undoes what its function produced, and a CRC fits 32 bits.
  ghost predicate Invertible(e: Env) {
    && (forall name, x :: e.marshal(name, x).Some? ==> e.unmarshal(name, e.marshal(name, x).value) == Some(x))
    && (forall b :: e.gunzip(e.gzip(b)) == Some(b))
    && (forall k, n, p, ad :: e.seal(k, n, p, ad).Some? ==> e.open(k, e.seal(k, n, p, ad).value, ad) == Some(p))
    && (forall b :: e.crc(b) < 4294967296)
  }

  function Require<T>(x: Option<T>, error: Error): Outcome<T> {
    match x case Some(v) => Ok(v) case None => Fail(error)
  }

  // saveState.encode: the bytes, what is left of the budget, and the next nonce.
  function Encode(e: Env, c: Codec, x: Item, left: int, n: nat): Outcome<(Bytes, int, nat)> {
    match c
    case Base(name) =>
      var b :- Require(e.marshal(name, x), CodecFailed);
      Ok((b, left, n))
    case Compressed(base) =>
      var (raw, left, n) :- Encode(e, base, x, left, n);
      if left - |raw| < 0 then Fail(TooLarge) else Ok((e.gzip(raw), left - |raw|, n))
    case Encrypted(base, key) =>
      var (plain, left, n) :- Encode(e, base, x, left, n);
      var b :- Require(e.seal(key, n, plain, []), CodecFailed);
      Ok((b, left, n + 1))
  }

  // loadState.decode: the item and what is left of the budget.
  function Decode(e: Env, c: Codec, b: Bytes, left: int): Outcome<(Item, int)> {
    match c
    case Base(name) =>
      var x :- Require(e.unmarshal(name, b), CodecFailed);
      Ok((x, left))
    case Compressed(base) =>
      var raw :- Require(e.gunzip(b), CodecFailed);
      if |raw| > left then Fail(TooLarge) else Decode(e, base, raw, left - |raw|)
    case Encrypted(base, key) =>
      var plain :- Require(e.open(key, b, []), CodecFailed);
      Decode(e, base, plain, left)
  }

  // Decoding gives the item back and spends of the budget exactly what encoding spent, although the
  // layers are charged in the opposite order.
  lemma {:induction false} DecodeInverts(e: Env, c: Codec, x: Item, left: int, n: nat, budget: int)
    requires Invertible(e) && Encode(e, c, x, left, n).Ok?
    requires var (_, after, _) := Encode(e, c, x, left, n).value; left - after <= budget
    ensures var (b, after, _) := Encode(e, c, x, left, n).value;
      after <= left && Decode(e, c, b, budget) == Ok((x, budget - (left - after)))
  {
    match c {
      case Base(_) =>
      case Compressed(base) =>
        var (raw, mid, _) := Encode(e, base, x, left, n).value;
        DecodeInverts(e, base, x, left, n, budget - |raw|);
      case Encrypted(base, _) =>
        DecodeInverts(e, base, x, left, n, budget);
    }
  }

  // splitEncryption: the codec without its outermost encryption layer, and that layer's key.
  function Split(c: Codec): (Codec, Option<CipherKey>) {
    match c
    case Base(_) => (c, None)
    case Encrypted(base, key) => (base, Some(key))
    case Compressed(base) =>
      var (rec, key) := Split(base);
      if key.Some? then (Compressed(rec), key) else (c, None)
  }

  function Keys(c: Codec): seq<CipherKey> {
    match c case Base(_) => [] case Compressed(base) => Keys(base) case Encrypted(base, key) => [key] + Keys(base)
  }

  function Compressions(c: Codec): nat {
    match c
    case Base(_) => 0
    case Compressed(base) => 1 + Compressions(base)
    case Encrypted(base, _) => Compressions(base)
  }

  // Splitting takes away the outermost encryption and nothing else; there is none to take iff the stack
  // has none.
  lemma {:induction false} SplitTakesOutermost(c: Codec)
    ensures var (rec, key) := Split(c);
      && (key.None? <==> Keys(c) == []) && (key.None? ==> rec == c)
      && (key.Some? ==> Keys(c) == [key.value] + Keys(rec)) && Compressions(rec) == Compressions(c)
  {
    match c {
      case Compressed(base) => SplitTakesOutermost(base);
      case _ =>
    }
  }

  function CodecName(c: Codec): Bytes {
    match c
    case Base(name) => name
    case Compressed(base) => CodecName(base) + [43, 103, 122, 105, 112]                                      // +gzip
    case Encrypted(base, _) => CodecName(base) + [43, 97, 101, 115, 45, 50, 53, 54, 45, 103, 99, 109] // +aes-256-gcm
  }

  const INFLATE_FACTOR := 16

  // Sixteen times the limit, or the largest 64-bit number.
  function InflateLimit(limit: int): (r: int)
    ensures limit * 16 <= 9223372036854775807 ==> r == limit * 16
    ensures limit * 16 > 9223372036854775807 ==> r == 9223372036854775807
  {
    if limit > MAX_INT64 / INFLATE_FACTOR then MAX_INT64 else limit * INFLATE_FACTOR
  }

  const VERSION := 3

  const VERSION_V2 := 2

  // -- Records ------------------------------------------------------------------------------------

  datatype Record = Record(
    key: Item, value: Item, expireAt: int, weight: int, inserted: int, hits: nat, flags: nat, slidingTtl: int,
    tags: seq<Bytes>)

  // The widths of the record's fields in memory.
  predicate Wellformed(r: Record) {
    && Int64(r.expireAt) && Int64(r.weight) && Int64(r.inserted) && Int64(r.slidingTtl)
    && r.hits < 4294967296 && r.flags < 65536
  }

  const FLAG_SLIDING := 1

  // What readRecord accepts.
  predicate Acceptable(r: Record) {
    r.weight >= 1 && (r.flags == 0 || (r.flags == FLAG_SLIDING && r.slidingTtl > 0))
  }

  function PutRecord(key: Bytes, value: Bytes, r: Record, rest: Bytes): Bytes
    requires Wellformed(r)
  {
    PutBlob(key, PutBlob(value, PutInt64(r.expireAt, PutInt64(r.weight, PutInt64(r.inserted,
      PutNum(4, r.hits, PutNum(2, r.flags, PutInt64(r.slidingTtl, PutNum(1, |r.tags|, PutBlobs(r.tags, rest))))))))))
  }

  function RecordSize(key: Bytes, value: Bytes, r: Record): nat {
    4 + |key| + 4 + |value| + 39 + BlobsSize(r.tags)
  }

  // The fields after the key and value.
  function GetFields(version: nat, i: In): (r: Outcome<((int, int, int), (nat, nat, int), seq<Bytes>, In)>)
    ensures r.Ok? ==> Consumed(i, r.value.3) && (version < VERSION ==> r.value.1.2 == 0)
  {
    var (expireAt, i) :- GetInt64(i);
    var (weight, i) :- GetInt64(i);
    var (inserted, i) :- GetInt64(i);
    var (hits, i) :- GetNum(i, 4);
    var (flags, i) :- GetNum(i, 2);
    var (slidingTtl, i) :- if version >= VERSION then GetInt64(i) else Ok((0, i));
    var (n, i) :- GetNum(i, 1);
    var (tags, i) :- GetBlobs(i, n);
    Ok(((expireAt, weight, inserted), (hits, flags, slidingTtl), tags, i))
  }

  // What readRecord makes of a record's fields: before version 3 a sliding entry keeps only its expiry.
  function Accepted(version: nat, r: Record): Outcome<Record> {
    if r.weight < 1 || r.flags > FLAG_SLIDING then Fail(Corrupt)
    else if r.flags == FLAG_SLIDING && version < VERSION then Ok(r.(flags := 0))
    else if r.flags == FLAG_SLIDING && r.slidingTtl <= 0 then Fail(Corrupt)
    else Ok(r)
  }

  function GetRecord(e: Env, c: Codec, version: nat, i: In, budget: int): (r: Outcome<(Record, In, int)>)
    ensures r.Ok? ==> Consumed(i, r.value.1) && Acceptable(r.value.0)
    ensures r.Ok? && version < VERSION ==> r.value.0.flags == 0 && r.value.0.slidingTtl == 0
  {
    var (keyBytes, i) :- GetBlob(i);
    var (valueBytes, i) :- GetBlob(i);
    var (key, budget) :- Decode(e, c, keyBytes, budget);
    var (value, budget) :- Decode(e, c, valueBytes, budget);
    var (times, counts, tags, i) :- GetFields(version, i);
    var r :- Accepted(version, Record(key, value, times.0, times.1, times.2, counts.0, counts.1, counts.2, tags));
    Ok((r, i, budget))
  }

  lemma FieldsRead(r: Record, rest: Bytes, left: int)
    requires Wellformed(r) && |r.tags| <= 255 && BlobsFit(r.tags) && 39 + BlobsSize(r.tags) <= left
    ensures
      var s := PutInt64(r.expireAt, PutInt64(r.weight, PutInt64(r.inserted, PutNum(4, r.hits, PutNum(2, r.flags,
        PutInt64(r.slidingTtl, PutNum(1, |r.tags|, PutBlobs(r.tags, rest))))))));
      GetFields(VERSION, In(s, left)) ==
        Ok(((r.expireAt, r.weight, r.inserted), (r.hits, r.flags, r.slidingTtl), r.tags,
            In(rest, left - 39 - BlobsSize(r.tags))))
  {
    hide GetInt64, GetNum, GetBlobs, PutInt64, PutNum, PutBlobs;
    Powers();
    var s7 := PutBlobs(r.tags, rest);
    var s6 := PutNum(1, |r.tags|, s7);
    var s5 := PutInt64(r.slidingTtl, s6);
    var s4 := PutNum(2, r.flags, s5);
    var s3 := PutNum(4, r.hits, s4);
    var s2 := PutInt64(r.inserted, s3);
    var s1 := PutInt64(r.weight, s2);
    Int64Reads(r.expireAt, s1, left);
    Int64Reads(r.weight, s2, left - 8);
    Int64Reads(r.inserted, s3, left - 16);
    NumReads(4, r.hits, s4, left - 24);
    NumReads(2, r.flags, s5, left - 28);
    Int64Reads(r.slidingTtl, s6, left - 30);
    NumReads(1, |r.tags|, s7, left - 38);
    BlobsRead(r.tags, rest, left - 39);
  }

  function GetRecords(e: Env, c: Codec, version: nat, i: In, n: nat, budget: int)
    : (r: Outcome<(seq<Record>, In, int)>)
    ensures r.Ok? ==> Consumed(i, r.value.1)
    decreases n
  {
    if n == 0 then Ok(([], i, budget))
    else
      var (r, i, budget) :- GetRecord(e, c, version, i, budget);
      var (rs, i, budget) :- GetRecords(e, c, version, i, n - 1, budget);
      Ok(([r] + rs, i, budget))
  }

  // The limits writeRecord enforces on a record's fields.
  predicate Writable(key: Bytes, value: Bytes, r: Record) {
    |key| <= FIELD_MAX && |value| <= FIELD_MAX && |r.tags| <= 255 && BlobsFit(r.tags)
  }

  function PutRecords(e: Env, c: Codec, rs: seq<Record>, left: int, n: nat, rest: Bytes): Outcome<(Bytes, int, nat)>
    requires forall i :: 0 <= i < |rs| ==> Wellformed(rs[i])
  {
    if rs == [] then Ok((rest, left, n))
    else
      var r := rs[0];
      var (key, left, n) :- Encode(e, c, r.key, left, n);
      var (value, left, n) :- Encode(e, c, r.value, left, n);
      if |r.tags| > 255 then Fail(TooManyTags)
      else if !Writable(key, value, r) then Fail(FieldTooBig)
      else
        var (s, left, n) :- PutRecords(e, c, rs[1..], left, n, rest);
        Ok((PutRecord(key, value, r, s), left, n))
  }

  // Sizes, and what a longer tail adds.
  lemma {:induction false} PutNumSize(n: nat, v: nat, t: Bytes, rest: Bytes)
    ensures |PutNum(n, v, t)| == n + |t| && PutNum(n, v, t + rest) == PutNum(n, v, t) + rest
  {
    if n > 0 { PutNumSize(n - 1, v / 256, t, rest); }
  }

  lemma PutInt64Size(v: int, t: Bytes, rest: Bytes)
    requires Int64(v)
    ensures |PutInt64(v, t)| == 8 + |t| && PutInt64(v, t + rest) == PutInt64(v, t) + rest
  {
    PutNumSize(8, Unsigned(v), t, rest);
  }

  lemma PutBlobSize(b: Bytes, t: Bytes, rest: Bytes)
    ensures |PutBlob(b, t)| == 4 + |b| + |t| && PutBlob(b, t + rest) == PutBlob(b, t) + rest
  {
    hide PutNum;
    PutNumSize(4, |b|, b + t, rest);
    assert b + (t + rest) == (b + t) + rest;
  }

  lemma {:induction false} PutBlobsSize(bs: seq<Bytes>, t: Bytes, rest: Bytes)
    ensures |PutBlobs(bs, t)| == BlobsSize(bs) + |t| && PutBlobs(bs, t + rest) == PutBlobs(bs, t) + rest
  {
    if bs != [] {
      hide PutBlob;
      PutBlobsSize(bs[1..], t, rest);
      PutBlobSize(bs[0], PutBlobs(bs[1..], t), rest);
    }
  }

  lemma PutRecordSize(key: Bytes, value: Bytes, r: Record, t: Bytes, rest: Bytes)
    requires Wellformed(r)
    ensures |PutRecord(key, value, r, t)| == RecordSize(key, value, r) + |t|
    ensures PutRecord(key, value, r, t + rest) == PutRecord(key, value, r, t) + rest
  {
    hide PutNum, PutBlob, PutBlobs, PutInt64;
    PutBlobsSize(r.tags, t, rest);
    var s7 := PutBlobs(r.tags, t);
    var s6 := PutNum(1, |r.tags|, s7);
    var s5 := PutInt64(r.slidingTtl, s6);
    var s4 := PutNum(2, r.flags, s5);
    var s3 := PutNum(4, r.hits, s4);
    var s2 := PutInt64(r.inserted, s3);
    var s1 := PutInt64(r.weight, s2);
    var s0 := PutInt64(r.expireAt, s1);
    PutNumSize(1, |r.tags|, s7, rest);
    PutInt64Size(r.slidingTtl, s6, rest);
    PutNumSize(2, r.flags, s5, rest);
    PutNumSize(4, r.hits, s4, rest);
    PutInt64Size(r.inserted, s3, rest);
    PutInt64Size(r.weight, s2, rest);
    PutInt64Size(r.expireAt, s1, rest);
    PutBlobSize(value, s0, rest);
    PutBlobSize(key, PutBlob(value, s0), rest);
  }

  // A record is read back exactly when readRecord's checks would pass it; otherwise it is refused.
  lemma RecordReads(e: Env, c: Codec, r: Record, left: int, n: nat, rest: Bytes, lim: int, budget: int)
    requires Invertible(e) && Wellformed(r)
    requires Encode(e, c, r.key, left, n).Ok?
    requires var (key, mid, m) := Encode(e, c, r.key, left, n).value;
      && Encode(e, c, r.value, mid, m).Ok?
      && var (value, after, _) := Encode(e, c, r.value, mid, m).value;
         Writable(key, value, r) && RecordSize(key, value, r) <= lim && left - after <= budget
    ensures var (key, mid, m) := Encode(e, c, r.key, left, n).value;
      var (value, after, _) := Encode(e, c, r.value, mid, m).value;
      && after <= left
      && GetRecord(e, c, VERSION, In(PutRecord(key, value, r, rest), lim), budget) ==
         if Acceptable(r) then Ok((r, In(rest, lim - RecordSize(key, value, r)), budget - (left - after)))
         else Fail(Corrupt)
  {
    hide GetBlob, GetFields, PutBlob, PutInt64, PutNum, PutBlobs, Encode, Decode, Invertible;
    var (key, mid, m) := Encode(e, c, r.key, left, n).value;
    var (value, after, _) := Encode(e, c, r.value, mid, m).value;
    var s0 := PutInt64(r.expireAt, PutInt64(r.weight, PutInt64(r.inserted, PutNum(4, r.hits, PutNum(2, r.flags,
      PutInt64(r.slidingTtl, PutNum(1, |r.tags|, PutBlobs(r.tags, rest))))))));
    BlobReads(key, PutBlob(value, s0), lim);
    BlobReads(value, s0, lim - 4 - |key|);
    Spends(e, c, r.value, mid, m);
    Spends(e, c, r.key, left, n);
    DecodeInverts(e, c, r.key, left, n, budget);
    DecodeInverts(e, c, r.value, mid, m, budget - (left - mid));
    FieldsRead(r, rest, lim - 8 - |key| - |value|);
  }

  lemma {:induction false} Spends(e: Env, c: Codec, x: Item, left: int, n: nat)
    requires Encode(e, c, x, left, n).Ok?
    ensures Encode(e, c, x, left, n).value.1 <= left
  {
    match c {
      case Base(_) =>
      case Compressed(base) => Spends(e, base, x, left, n);
      case Encrypted(base, _) => Spends(e, base, x, left, n);
    }
  }

  ghost predicate AllAcceptable(rs: seq<Record>) {
    forall i :: 0 <= i < |rs| ==> Acceptable(rs[i])
  }

  predicate AllWellformed(rs: seq<Record>) {
    forall i :: 0 <= i < |rs| ==> Wellformed(rs[i])
  }

  // One record and the rest of the run.
  lemma PutRecordsStep(e: Env, c: Codec, rs: seq<Record>, left: int, n: nat, t: Bytes)
    returns (key: Bytes, mid: int, m: nat, value: Bytes, far: int, l: nat)
    requires AllWellformed(rs) && rs != [] && PutRecords(e, c, rs, left, n, t).Ok?
    ensures Encode(e, c, rs[0].key, left, n) == Ok((key, mid, m))
    ensures Encode(e, c, rs[0].value, mid, m) == Ok((value, far, l))
    ensures Writable(key, value, rs[0]) && PutRecords(e, c, rs[1..], far, l, t).Ok? && far <= left
    ensures var (s, after, p) := PutRecords(e, c, rs[1..], far, l, t).value;
      PutRecords(e, c, rs, left, n, t) == Ok((PutRecord(key, value, rs[0], s), after, p))
  {
    hide PutRecord, Encode;
    var (k, a, b) := Encode(e, c, rs[0].key, left, n).value;
    var (v, f, g) := Encode(e, c, rs[0].value, a, b).value;
    Spends(e, c, rs[0].key, left, n);
    Spends(e, c, rs[0].value, a, b);
    key, mid, m, value, far, l := k, a, b, v, f, g;
  }

  lemma GetRecordsStep(e: Env, c: Codec, i: In, n: nat, budget: int)
    requires n > 0 && GetRecord(e, c, VERSION, i, budget).Ok?
    requires var (r, j, b) := GetRecord(e, c, VERSION, i, budget).value; GetRecords(e, c, VERSION, j, n - 1, b).Ok?
    ensures var (r, j, b) := GetRecord(e, c, VERSION, i, budget).value;
      var (rs, k, d) := GetRecords(e, c, VERSION, j, n - 1, b).value;
      GetRecords(e, c, VERSION, i, n, budget) == Ok(([r] + rs, k, d))
  {
    hide GetRecord;
  }

  lemma NoRecords(e: Env, c: Codec, left: int, n: nat, t: Bytes, lim: int, budget: int)
    ensures PutRecords(e, c, [], left, n, t) == Ok((t, left, n))
    ensures GetRecords(e, c, VERSION, In(t, lim), 0, budget) == Ok(([], In(t, lim), budget))
  {
  }

  // A written run of records is read back under any limit and budget that cover what writing it took,
  // and spends exactly that.
  lemma {:induction false} RecordsRead(
    e: Env, c: Codec, rs: seq<Record>, left: int, n: nat, t: Bytes, lim: int, budget: int)
    requires Invertible(e) && AllWellformed(rs) && AllAcceptable(rs) && PutRecords(e, c, rs, left, n, t).Ok?
    requires var (s, after, _) := PutRecords(e, c, rs, left, n, t).value; |s| - |t| <= lim && left - after <= budget
    ensures var (s, after, _) := PutRecords(e, c, rs, left, n, t).value;
      GetRecords(e, c, VERSION, In(s, lim), |rs|, budget) == Ok((rs, In(t, lim - (|s| - |t|)), budget - (left - after)))
  {
    hide GetRecord, GetRecords, PutRecords, PutRecord, Encode, Invertible, RecordSize;
    if rs == [] {
      NoRecords(e, c, left, n, t, lim, budget);
    } else {
      var key, mid, m, value, far, l := PutRecordsStep(e, c, rs, left, n, t);
      var (tail, after, _) := PutRecords(e, c, rs[1..], far, l, t).value;
      var size := RecordSize(key, value, rs[0]);
      PutRecordSize(key, value, rs[0], tail, []);
      Grows(e, c, rs[1..], far, l, t, []);
      RecordReads(e, c, rs[0], left, n, tail, lim, budget);
      RecordsRead(e, c, rs[1..], far, l, t, lim - size, budget - (left - far));
      GetRecordsStep(e, c, In(PutRecord(key, value, rs[0], tail), lim), |rs|, budget);
      assert [rs[0]] + rs[1..] == rs;
    }
  }

  lemma {:induction false} Grows(e: Env, c: Codec, rs: seq<Record>, left: int, n: nat, t: Bytes, rest: Bytes)
    requires AllWellformed(rs) && PutRecords(e, c, rs, left, n, t).Ok?
    ensures var (s, after, m) := PutRecords(e, c, rs, left, n, t).value;
      |t| <= |s| && after <= left && PutRecords(e, c, rs, left, n, t + rest) == Ok((s + rest, after, m))
  {
    if rs != [] {
      hide PutRecord, Encode;
      var key, mid, m, value, far, l := PutRecordsStep(e, c, rs, left, n, t);
      var (tail, _, _) := PutRecords(e, c, rs[1..], far, l, t).value;
      Grows(e, c, rs[1..], far, l, t, rest);
      PutRecordSize(key, value, rs[0], tail, rest);
    }
  }

  // -- The header ---------------------------------------------------------------------------------

  const MAGIC: Bytes := [82, 84, 78, 73] // RTNI


  datatype Header = Header(version: nat, codec: Bytes, name: Bytes, meta: map<Bytes, Bytes>, saveTime: int, count: nat)

  // The metadata pairs in the order of keys.
  function Pairs(keys: seq<Bytes>, meta: map<Bytes, Bytes>): seq<Bytes>
    requires forall k :: k in keys ==> k in meta
  {
    if keys == [] then []
    else var k := keys[|keys| - 1]; Pairs(keys[..|keys| - 1], meta) + [k, meta[k]]
  }

  function FromPairs(bs: seq<Bytes>): map<Bytes, Bytes> {
    if |bs| < 2 then map[] else FromPairs(bs[..|bs| - 2])[bs[|bs| - 2] := bs[|bs| - 1]]
  }

  lemma {:induction false} PairsInvert(keys: seq<Bytes>, meta: map<Bytes, Bytes>)
    requires forall k :: k in keys ==> k in meta
    ensures |Pairs(keys, meta)| == 2 * |keys| && FromPairs(Pairs(keys, meta)) == map k | k in keys :: meta[k]
  {
    if keys != [] {
      var n := |keys| - 1;
      PairsInvert(keys[..n], meta);
      assert Pairs(keys, meta)[..2 * n] == Pairs(keys[..n], meta);
      assert keys == keys[..n] + [keys[n]];
    }
  }

  function PutHeader(h: Header, keys: seq<Bytes>, rest: Bytes): Bytes
    requires Int64(h.saveTime) && Int64(h.count) && forall k :: k in keys ==> k in h.meta
  {
    MAGIC + PutNum(1, VERSION, PutBlob(h.codec, PutBlob(h.name, PutNum(2, |keys|,
      PutBlobs(Pairs(keys, h.meta), PutInt64(h.saveTime, PutInt64(h.count, rest)))))))
  }

  function HeaderSize(h: Header, keys: seq<Bytes>): nat
    requires forall k :: k in keys ==> k in h.meta
  {
    5 + 4 + |h.codec| + 4 + |h.name| + 2 + BlobsSize(Pairs(keys, h.meta)) + 16
  }

  function GetHeader(i: In): (r: Outcome<(Header, In)>)
    ensures r.Ok? ==> Consumed(i, r.value.1)
  {
    var (magic, i) :- Take(i, 4);
    if magic != MAGIC then Fail(Incompatible)
    else
      var (version, i) :- GetNum(i, 1);
      if version != VERSION && version != VERSION_V2 then Fail(Incompatible)
      else
        var (codec, i) :- GetBlob(i);
        var (name, i) :- GetBlob(i);
        var (n, i) :- GetNum(i, 2);
        var (pairs, i) :- GetBlobs(i, 2 * n);
        var (saveTime, i) :- GetInt64(i);
        var (count, i) :- GetInt64(i);
        if count < 0 then Fail(Corrupt) else Ok((Header(version, codec, name, FromPairs(pairs), saveTime, count), i))
  }

  // What writeHeader accepts, with the keys listing the metadata.
  predicate HeaderWritable(h: Header, keys: seq<Bytes>)
    requires forall k :: k in keys ==> k in h.meta
  {
    |keys| <= 65535 && |h.codec| <= FIELD_MAX && |h.name| <= FIELD_MAX && BlobsFit(Pairs(keys, h.meta))
  }

  lemma HeaderReads(h: Header, keys: seq<Bytes>, rest: Bytes, left: int)
    requires Int64(h.saveTime) && Int64(h.count) && (forall k :: k in keys <==> k in h.meta)
    requires h.version == VERSION && HeaderWritable(h, keys) && HeaderSize(h, keys) <= left
    ensures GetHeader(In(PutHeader(h, keys, rest), left)) == Ok((h, In(rest, left - HeaderSize(h, keys))))
  {
    hide GetInt64, GetNum, GetBlob, GetBlobs, PutInt64, PutNum, PutBlob, PutBlobs, Pairs, FromPairs;
    Powers();
    PairsInvert(keys, h.meta);
    var pairs := Pairs(keys, h.meta);
    var s6 := PutInt64(h.count, rest);
    var s5 := PutInt64(h.saveTime, s6);
    var s4 := PutBlobs(pairs, s5);
    var s3 := PutNum(2, |keys|, s4);
    var s2 := PutBlob(h.name, s3);
    var s1 := PutBlob(h.codec, s2);
    var s0 := PutNum(1, VERSION, s1);
    assert (MAGIC + s0)[..4] == MAGIC && (MAGIC + s0)[4..] == s0;
    NumReads(1, VERSION, s1, left - 4);
    BlobReads(h.codec, s2, left - 5);
    BlobReads(h.name, s3, left - 9 - |h.codec|);
    var l := left - 13 - |h.codec| - |h.name|;
    NumReads(2, |keys|, s4, l);
    BlobsRead(pairs, s5, l - 2);
    Int64Reads(h.saveTime, s6, l - 2 - BlobsSize(pairs));
    Int64Reads(h.count, rest, l - 10 - BlobsSize(pairs));
    assert (map k | k in keys :: h.meta[k]) == h.meta;
  }

  lemma PutHeaderSize(h: Header, keys: seq<Bytes>, t: Bytes, rest: Bytes)
    requires Int64(h.saveTime) && Int64(h.count) && forall k :: k in keys ==> k in h.meta
    ensures |PutHeader(h, keys, t)| == HeaderSize(h, keys) + |t|
    ensures PutHeader(h, keys, t + rest) == PutHeader(h, keys, t) + rest
  {
    hide PutNum, PutBlob, PutBlobs, PutInt64, Pairs;
    var pairs := Pairs(keys, h.meta);
    var s6 := PutInt64(h.count, t);
    var s5 := PutInt64(h.saveTime, s6);
    var s4 := PutBlobs(pairs, s5);
    var s3 := PutNum(2, |keys|, s4);
    var s2 := PutBlob(h.name, s3);
    var s1 := PutBlob(h.codec, s2);
    PutInt64Size(h.count, t, rest);
    PutInt64Size(h.saveTime, s6, rest);
    PutBlobsSize(pairs, s5, rest);
    PutNumSize(2, |keys|, s4, rest);
    PutBlobSize(h.name, s3, rest);
    PutBlobSize(h.codec, s2, rest);
    PutNumSize(1, VERSION, s1, rest);
    assert MAGIC + (PutNum(1, VERSION, s1) + rest) == MAGIC + PutNum(1, VERSION, s1) + rest;
  }

  // -- Whole snapshots ----------------------------------------------------------------------------

  // The records, in the clear or as one sealed block bound to the header.
  function PutBody(e: Env, codec: Codec, rs: seq<Record>, header: Bytes, limit: int): Outcome<Bytes>
    requires AllWellformed(rs)
  {
    var (rec, key) := Split(codec);
    var (s, _, n) :- PutRecords(e, rec, rs, InflateLimit(limit), 0, []);
    match key
    case None => Ok(s)
    case Some(k) =>
      if |s| > limit then Fail(TooLarge)
      else
        var sealed :- Require(e.seal(k, n, s, header), CodecFailed);
        Ok(PutNum(8, |sealed|, sealed))
  }

  // Older snapshots sealed each field on its own; encrypted ones are refused.
  function GetBody(e: Env, codec: Codec, version: nat, i: In, header: Bytes, count: nat, limit: int)
    : (r: Outcome<(seq<Record>, In)>)
    ensures r.Ok? ==> Consumed(i, r.value.1)
  {
    var (rec, key) := Split(codec);
    match key
    case None =>
      var (rs, i, _) :- GetRecords(e, rec, version, i, count, InflateLimit(limit));
      Ok((rs, i))
    case Some(k) =>
      if version < VERSION then Fail(Incompatible)
      else
        var (n, i) :- GetNum(i, 8);
        var (sealed, i) :- Take(i, n);
        var plain :- Require(e.open(k, sealed, header), Corrupt);
        var (rs, inner, _) :- GetRecords(e, rec, version, In(plain, |plain|), count, InflateLimit(limit));
        if inner.left != 0 then Fail(Corrupt) else Ok((rs, i))
  }

  // saveTo; keys lists the metadata's keys. A limit of 0 or less means none.
  function SaveTo(e: Env, codec: Codec, limit: int, h: Header, keys: seq<Bytes>, rs: seq<Record>): Outcome<Bytes>
    requires AllWellformed(rs) && Int64(h.saveTime) && Int64(h.count) && forall k :: k in keys ==> k in h.meta
  {
    var limit := if limit <= 0 then MAX_INT64 else limit;
    if !HeaderWritable(h, keys) then Fail(FieldTooBig)
    else
      var header := PutHeader(h, keys, []);
      var body :- PutBody(e, codec, rs, header, limit);
      var s := header + body;
      if |s| + 4 > limit then Fail(TooLarge) else Ok(s + PutNum(4, e.crc(s), []))
  }

  function ReadSnapshot(e: Env, codec: Codec, limit: int, input: Bytes): Outcome<(Header, seq<Record>)> {
    var (h, i) :- GetHeader(In(input, limit));
    if h.codec != CodecName(codec) then Fail(Incompatible)
    else
      var (rs, i) :- GetBody(e, codec, h.version, i, input[..|input| - |i.s|], h.count, limit);
      var (stored, _) :- GetNum(i, 4);
      if stored != e.crc(input[..|input| - |i.s|]) then Fail(Corrupt) else Ok((h, rs))
  }

  lemma BodyReads(e: Env, codec: Codec, rs: seq<Record>, header: Bytes, limit: int, rest: Bytes, lim: int)
    requires Invertible(e) && AllWellformed(rs) && AllAcceptable(rs) && 0 <= lim <= limit <= MAX_INT64
    requires PutBody(e, codec, rs, header, limit).Ok? && |PutBody(e, codec, rs, header, limit).value| <= lim
    ensures var b := PutBody(e, codec, rs, header, limit).value;
      GetBody(e, codec, VERSION, In(b + rest, lim), header, |rs|, limit) == Ok((rs, In(rest, lim - |b|)))
  {
    hide GetRecords, PutRecords, Split, GetNum, PutNum, Invertible;
    var (rec, key) := Split(codec);
    var budget := InflateLimit(limit);
    var (s, after, n) := PutRecords(e, rec, rs, budget, 0, []).value;
    Grows(e, rec, rs, budget, 0, [], rest);
    assert [] + rest == rest;
    BudgetLeft(e, rec, rs, budget, 0, []);
    match key {
      case None => RecordsRead(e, rec, rs, budget, 0, rest, lim, budget);
      case Some(k) =>
        RecordsRead(e, rec, rs, budget, 0, [], |s|, budget);
        Sealed(e, k, n, s, header);
        var sealed := e.seal(k, n, s, header).value;
        Powers();
        PutNumSize(8, |sealed|, sealed, rest);
        NumReads(8, |sealed|, sealed + rest, lim);
        assert (sealed + rest)[..|sealed|] == sealed && (sealed + rest)[|sealed|..] == rest;
    }
  }

  lemma Sealed(e: Env, k: CipherKey, n: nat, p: Bytes, ad: Bytes)
    requires Invertible(e)
    ensures e.seal(k, n, p, ad).Some? ==> e.open(k, e.seal(k, n, p, ad).value, ad) == Some(p)
  {
  }

  // A save never overdraws its budget.
  lemma {:induction false} EncodeWithin(e: Env, c: Codec, x: Item, left: int, n: nat)
    requires left >= 0 && Encode(e, c, x, left, n).Ok?
    ensures Encode(e, c, x, left, n).value.1 >= 0
  {
    match c {
      case Base(_) =>
      case Compressed(base) =>
      case Encrypted(base, _) => EncodeWithin(e, base, x, left, n);
    }
  }

  lemma {:induction false} BudgetLeft(e: Env, c: Codec, rs: seq<Record>, left: int, n: nat, t: Bytes)
    requires left >= 0 && AllWellformed(rs) && PutRecords(e, c, rs, left, n, t).Ok?
    ensures PutRecords(e, c, rs, left, n, t).value.1 >= 0
  {
    if rs != [] {
      var key, mid, m, value, far, l := PutRecordsStep(e, c, rs, left, n, t);
      EncodeWithin(e, c, rs[0].key, left, n);
      EncodeWithin(e, c, rs[0].value, mid, m);
      BudgetLeft(e, c, rs[1..], far, l, t);
    }
  }

  // What a save wrote, followed by anything: header, body, CRC, rest.
  lemma SavedParts(e: Env, codec: Codec, limit: int, h: Header, keys: seq<Bytes>, rs: seq<Record>, rest: Bytes)
    returns (header: Bytes, body: Bytes, t: Bytes)
    requires AllWellformed(rs) && limit > 0 && Int64(h.saveTime) && Int64(h.count)
    requires forall k :: k in keys ==> k in h.meta
    requires SaveTo(e, codec, limit, h, keys, rs).Ok?
    ensures PutBody(e, codec, rs, header, limit) == Ok(body) && HeaderWritable(h, keys)
    ensures |header| == HeaderSize(h, keys) && |header| + |body| + 4 <= limit
    ensures t == PutNum(4, e.crc(header + body), rest) && |t| == 4 + |rest|
    ensures PutHeader(h, keys, body + t) == header + (body + t)
    ensures SaveTo(e, codec, limit, h, keys, rs).value + rest == header + (body + t)
    ensures |SaveTo(e, codec, limit, h, keys, rs).value| <= limit
  {
    hide PutHeader, PutBody, PutNum, HeaderSize, HeaderWritable;
    header := PutHeader(h, keys, []);
    body := PutBody(e, codec, rs, header, limit).value;
    var crc := e.crc(header + body);
    t := PutNum(4, crc, rest);
    PutNumSize(4, crc, [], rest);
    PutNumSize(4, crc, rest, []);
    assert [] + rest == rest && [] + (body + t) == body + t;
    PutHeaderSize(h, keys, [], body + t);
    assert header + body + (PutNum(4, crc, []) + rest) == header + (body + t);
    assert header + body + PutNum(4, crc, []) + rest == header + body + (PutNum(4, crc, []) + rest);
  }

  // Any snapshot saved under a limit is read back under that limit as the same header, metadata and
  // records, whatever follows it in the input and however its codec compresses or encrypts.
  lemma RoundTrip(e: Env, codec: Codec, limit: int, h: Header, keys: seq<Bytes>, rs: seq<Record>, rest: Bytes)
    requires Invertible(e) && AllWellformed(rs) && AllAcceptable(rs) && 0 < limit <= MAX_INT64
    requires Int64(h.saveTime) && Int64(h.count)
    requires h.version == VERSION && h.count == |rs| && h.codec == CodecName(codec)
    requires forall k :: k in keys <==> k in h.meta
    requires SaveTo(e, codec, limit, h, keys, rs).Ok?
    ensures |SaveTo(e, codec, limit, h, keys, rs).value| <= limit
    ensures ReadSnapshot(e, codec, limit, SaveTo(e, codec, limit, h, keys, rs).value + rest) == Ok((h, rs))
  {
    hide GetHeader, PutHeader, GetBody, PutBody, GetNum, PutNum, CodecName, HeaderSize, HeaderWritable;
    hide Invertible, Pow256, SaveTo;
    var header, body, t := SavedParts(e, codec, limit, h, keys, rs, rest);
    var input := header + (body + t);
    HeaderReads(h, keys, body + t, limit);
    assert input[..|input| - |body + t|] == header;
    BodyReads(e, codec, rs, header, limit, t, limit - |header|);
    assert input[..|input| - |t|] == header + body;
    Powers();
    CrcFits(e, header + body);
    NumReads(4, e.crc(header + body), rest, limit - |header| - |body|);
  }

  lemma CrcFits(e: Env, b: Bytes)
    requires Invertible(e)
    ensures e.crc(b) < 4294967296
  {
  }

  // -- What Save writes but Load refuses ----------------------------------------------------------

  lemma GetRecordsFails(e: Env, c: Codec, i: In, n: nat, budget: int)
    requires n > 0
    ensures GetRecord(e, c, VERSION, i, budget).Fail? ==>
      GetRecords(e, c, VERSION, i, n, budget) == GetRecord(e, c, VERSION, i, budget).PropagateFailure()
    ensures GetRecord(e, c, VERSION, i, budget).Ok? ==>
      var (r, j, b) := GetRecord(e, c, VERSION, i, budget).value;
      GetRecords(e, c, VERSION, j, n - 1, b).Fail? ==>
        GetRecords(e, c, VERSION, i, n, budget) == GetRecords(e, c, VERSION, j, n - 1, b)
  {
    hide GetRecord;
  }

  lemma {:induction false} RecordsRefused(
    e: Env, c: Codec, rs: seq<Record>, left: int, n: nat, t: Bytes, lim: int, budget: int)
    requires Invertible(e) && AllWellformed(rs) && !AllAcceptable(rs) && PutRecords(e, c, rs, left, n, t).Ok?
    requires var (s, after, _) := PutRecords(e, c, rs, left, n, t).value; |s| - |t| <= lim && left - after <= budget
    ensures var (s, after, _) := PutRecords(e, c, rs, left, n, t).value;
      GetRecords(e, c, VERSION, In(s, lim), |rs|, budget) == Fail(Corrupt)
  {
    hide GetRecord, GetRecords, PutRecords, PutRecord, Encode, Invertible, RecordSize;
    var key, mid, m, value, far, l := PutRecordsStep(e, c, rs, left, n, t);
    var (tail, after, _) := PutRecords(e, c, rs[1..], far, l, t).value;
    var i := In(PutRecord(key, value, rs[0], tail), lim);
    PutRecordSize(key, value, rs[0], tail, []);
    Grows(e, c, rs[1..], far, l, t, []);
    RecordReads(e, c, rs[0], left, n, tail, lim, budget);
    GetRecordsFails(e, c, i, |rs|, budget);
    if Acceptable(rs[0]) {
      assert !AllAcceptable(rs[1..]) by {
        var j :| 0 <= j < |rs| && !Acceptable(rs[j]);
        assert rs[1..][j - 1] == rs[j];
      }
      RecordsRefused(e, c, rs[1..], far, l, t, lim - RecordSize(key, value, rs[0]), budget - (left - far));
    }
  }

  lemma BodyRefused(e: Env, codec: Codec, rs: seq<Record>, header: Bytes, limit: int, rest: Bytes, lim: int)
    requires Invertible(e) && AllWellformed(rs) && !AllAcceptable(rs) && 0 <= lim <= limit <= MAX_INT64
    requires PutBody(e, codec, rs, header, limit).Ok? && |PutBody(e, codec, rs, header, limit).value| <= lim
    ensures var b := PutBody(e, codec, rs, header, limit).value;
      GetBody(e, codec, VERSION, In(b + rest, lim), header, |rs|, limit) == Fail(Corrupt)
  {
    hide GetRecords, PutRecords, Split, GetNum, PutNum, Invertible, AllAcceptable;
    var (rec, key) := Split(codec);
    var budget := InflateLimit(limit);
    var (s, after, n) := PutRecords(e, rec, rs, budget, 0, []).value;
    Grows(e, rec, rs, budget, 0, [], rest);
    assert [] + rest == rest;
    BudgetLeft(e, rec, rs, budget, 0, []);
    match key {
      case None => RecordsRefused(e, rec, rs, budget, 0, rest, lim, budget);
      case Some(k) =>
        RecordsRefused(e, rec, rs, budget, 0, [], |s|, budget);
        Sealed(e, k, n, s, header);
        var sealed := e.seal(k, n, s, header).value;
        Powers();
        PutNumSize(8, |sealed|, sealed, rest);
        NumReads(8, |sealed|, sealed + rest, lim);
        assert (sealed + rest)[..|sealed|] == sealed && (sealed + rest)[|sealed|..] == rest;
    }
  }

  // A completed save loads if and only if every record has a weight of at least 1, no flag but sliding,
  // and a positive sliding TTL if it slides; any other is refused as corrupt.
  lemma LoadsIffAcceptable(e: Env, codec: Codec, limit: int, h: Header, keys: seq<Bytes>, rs: seq<Record>, rest: Bytes)
    requires Invertible(e) && AllWellformed(rs) && 0 < limit <= MAX_INT64
    requires Int64(h.saveTime) && Int64(h.count)
    requires h.version == VERSION && h.count == |rs| && h.codec == CodecName(codec)
    requires forall k :: k in keys <==> k in h.meta
    requires SaveTo(e, codec, limit, h, keys, rs).Ok?
    ensures ReadSnapshot(e, codec, limit, SaveTo(e, codec, limit, h, keys, rs).value + rest) ==
            if AllAcceptable(rs) then Ok((h, rs)) else Fail(Corrupt)
  {
    hide GetHeader, PutHeader, GetBody, PutBody, GetNum, PutNum, CodecName, HeaderSize, HeaderWritable;
    hide Invertible, Pow256, SaveTo, AllAcceptable;
    if AllAcceptable(rs) {
      RoundTrip(e, codec, limit, h, keys, rs, rest);
    } else {
      var header, body, t := SavedParts(e, codec, limit, h, keys, rs, rest);
      var input := header + (body + t);
      HeaderReads(h, keys, body + t, limit);
      assert input[..|input| - |body + t|] == header;
      BodyRefused(e, codec, rs, header, limit, t, limit - |header|);
    }
  }

  // So Save writes a sliding entry whose sliding TTL is 0 and Load refuses the whole snapshot.
  lemma SlidingWithoutTtl(e: Env, codec: Codec, limit: int, h: Header, keys: seq<Bytes>, rs: seq<Record>, i: nat)
    requires Invertible(e) && AllWellformed(rs) && 0 < limit <= MAX_INT64
    requires Int64(h.saveTime) && Int64(h.count)
    requires h.version == VERSION && h.count == |rs| && h.codec == CodecName(codec)
    requires forall k :: k in keys <==> k in h.meta
    requires i < |rs| && rs[i].flags == FLAG_SLIDING && rs[i].slidingTtl == 0
    ensures SaveTo(e, codec, limit, h, keys, rs).Ok? ==>
      ReadSnapshot(e, codec, limit, SaveTo(e, codec, limit, h, keys, rs).value) == Fail(Corrupt)
  {
    hide SaveTo, ReadSnapshot;
    assert !Acceptable(rs[i]);
    if SaveTo(e, codec, limit, h, keys, rs).Ok? {
      LoadsIffAcceptable(e, codec, limit, h, keys, rs, []);
      var s := SaveTo(e, codec, limit, h, keys, rs).value;
      assert s + [] == s;
    }
  }

  // -- The reader and writer, updated in place ----------------------------------------------------

  class SnapReader {
    const input: Bytes
    var pos: nat
    var left: int

    ghost predicate Valid()
      reads this
    {
      pos <= |input|
    }

    ghost function View(): In
      requires Valid()
      reads this
    {
      In(input[pos..], left)
    }

    constructor (input: Bytes, limit: int)
      ensures Valid() && View() == In(input, limit)
    {
      this.input, pos, left := input, 0, limit;
    }

    // take: a length past the limit fails before anything is read; a short input is used up.
    method TakeBytes(n: nat) returns (r: Outcome<Bytes>)
      requires Valid()
      modifies this
      ensures Valid() && (Take(old(View()), n).Ok? <==> r.Ok?)
      ensures r.Ok? ==> Take(old(View()), n) == Ok((r.value, View()))
      ensures r.Fail? ==> Take(old(View()), n) == Fail(r.error) && (r.error.PastEnd? ==> View() == old(View()))
    {
      if n > left {
        return Fail(PastEnd);
      }
      if n > |input| - pos {
        left := left - (|input| - pos);
        pos := |input|;
        return Fail(UnexpectedEnd);
      }
      r := Ok(input[pos..pos + n]);
      assert input[pos..][..n] == input[pos..pos + n] && input[pos..][n..] == input[pos + n..];
      pos, left := pos + n, left - n;
    }

    method Number(n: nat) returns (r: Outcome<nat>)
      requires Valid()
      modifies this
      ensures Valid() && (r.Ok? ==> GetNum(old(View()), n) == Ok((r.value, View())))
      ensures r.Fail? ==> GetNum(old(View()), n) == Fail(r.error)
    {
      var b := TakeBytes(n);
      r := if b.Ok? then Ok(Num(b.value)) else Fail(b.error);
    }

    method Blob() returns (r: Outcome<Bytes>)
      requires Valid()
      modifies this
      ensures Valid() && (r.Ok? ==> GetBlob(old(View())) == Ok((r.value, View())))
      ensures r.Fail? ==> GetBlob(old(View())) == Fail(r.error)
    {
      var n := Number(4);
      if n.Fail? {
        return Fail(n.error);
      }
      if n.value == 0 {
        return Ok([]);
      }
      r := TakeBytes(n.value);
    }

    // The tag loop of readRecord and, over pairs, of readMetadata.
    method Blobs(n: nat) returns (r: Outcome<seq<Bytes>>)
      requires Valid()
      modifies this
      ensures Valid() && (r.Ok? ==> GetBlobs(old(View()), n) == Ok((r.value, View())))
      ensures r.Fail? ==> GetBlobs(old(View()), n) == Fail(r.error)
    {
      hide GetBlob;
      var out: seq<Bytes> := [];
      ghost var all := GetBlobs(View(), n);
      assert all.Ok? ==> [] + all.value.0 == all.value.0;
      for k := 0 to n
        invariant Valid()
        invariant GetBlobs(View(), n - k).Fail? ==> GetBlobs(old(View()), n) == GetBlobs(View(), n - k)
        invariant GetBlobs(View(), n - k).Ok? ==>
          var (bs, i) := GetBlobs(View(), n - k).value; GetBlobs(old(View()), n) == Ok((out + bs, i))
      {
        var b := Blob();
        if b.Fail? {
          return Fail(b.error);
        }
        ghost var more := GetBlobs(View(), n - k - 1);
        assert more.Ok? ==> out + ([b.value] + more.value.0) == out + [b.value] + more.value.0;
        out := out + [b.value];
      }
      assert out + [] == out;
      r := Ok(out);
    }
  }

  function Concat(chunks: seq<Bytes>): Bytes {
    if chunks == [] then [] else Concat(chunks[..|chunks| - 1]) + chunks[|chunks| - 1]
  }

  class LimitWriter {
    var out: Bytes
    var left: int

    constructor (limit: int)
      ensures out == [] && left == limit
    {
      out, left := [], limit;
    }

    method Write(p: Bytes) returns (ok: bool)
      modifies this
      ensures ok == (|p| <= old(left))
      ensures ok ==> out == old(out) + p && left == old(left) - |p|
      ensures !ok ==> out == old(out) && left == old(left)
    {
      if |p| > left {
        return false;
      }
      out, left := out + p, left - |p|;
      return true;
    }

    // Writing a snapshot piece by piece succeeds exactly when the whole fits the limit.
    method WriteAll(chunks: seq<Bytes>) returns (ok: bool)
      requires left >= 0
      modifies this
      ensures ok <==> |Concat(chunks)| <= old(left)
      ensures ok ==> out == old(out) + Concat(chunks) && left == old(left) - |Concat(chunks)|
    {
      for i := 0 to |chunks|
        invariant out == old(out) + Concat(chunks[..i]) && left == old(left) - |Concat(chunks[..i])| >= 0
      {
        assert chunks[..i + 1][..i] == chunks[..i];
        var wrote := Write(chunks[i]);
        if !wrote {
          Longer(chunks, i + 1);
          return false;
        }
      }
      assert chunks[..|chunks|] == chunks;
      return true;
    }
  }

  lemma {:induction false} Longer(chunks: seq<Bytes>, i: nat)
    requires i <= |chunks|
    ensures |Concat(chunks[..i])| <= |Concat(chunks)|
  {
    if i == |chunks| {
      assert chunks[..i] == chunks;
    } else {
      Longer(chunks[..|chunks| - 1], i);
      assert chunks[..|chunks| - 1][..i] == chunks[..i];
    }
  }

  // -- sortStrings --------------------------------------------------------------------------------

  predicate Less(a: Bytes, b: Bytes) {
    b != [] && (a == [] || a[0] < b[0] || (a[0] == b[0] && Less(a[1..], b[1..])))
  }

  predicate Leq(a: Bytes, b: Bytes) { !Less(b, a) }

  lemma {:induction false} LeqTrans(a: Bytes, b: Bytes, c: Bytes)
    requires Leq(a, b) && Leq(b, c)
    ensures Leq(a, c)
  {
    if a != [] && b != [] && c != [] && a[0] == b[0] == c[0] { LeqTrans(a[1..], b[1..], c[1..]); }
  }

  lemma {:induction false} LessLeq(a: Bytes, b: Bytes)
    requires Less(a, b)
    ensures Leq(a, b)
  {
    if a != [] && a[0] == b[0] { LessLeq(a[1..], b[1..]); }
  }

  // The first n are in order, but for how k compares with those before it.
  ghost predicate SortedBut(s: seq<Bytes>, n: nat, k: int) {
    n <= |s| && forall p, q :: 0 <= p < q < n && q != k ==> Leq(s[p], s[q])
  }

  lemma SortedStart(s: seq<Bytes>, n: nat)
    requires n <= |s| && n <= 1
    ensures SortedBut(s, n, -1)
  {
  }

  lemma SortedNext(s: seq<Bytes>, n: nat)
    requires SortedBut(s, n, -1) && n < |s|
    ensures SortedBut(s, n + 1, n)
  {
  }

  lemma SwapDown(s: seq<Bytes>, n: nat, k: nat)
    requires SortedBut(s, n, k) && 0 < k < n && Less(s[k], s[k - 1])
    ensures SortedBut(s[k - 1 := s[k]][k := s[k - 1]], n, k - 1)
  {
    hide Less, Leq;
    LessLeq(s[k], s[k - 1]);
  }

  lemma Settled(s: seq<Bytes>, n: nat, k: nat)
    requires SortedBut(s, n, k) && k < n && (k > 0 ==> !Less(s[k], s[k - 1]))
    ensures SortedBut(s, n, -1)
  {
    hide Less;
    if k > 0 {
      forall p | 0 <= p < k ensures Leq(s[p], s[k]) {
        if p < k - 1 { LeqTrans(s[p], s[k - 1], s[k]); }
      }
    }
  }

  method SwapDownInPlace(a: array<Bytes>, k: nat)
    requires 0 < k < a.Length
    modifies a
    ensures a[..] == old(a[..])[k - 1 := old(a[k])][k := old(a[k - 1])] && multiset(a[..]) == multiset(old(a[..]))
  {
    a[k - 1], a[k] := a[k], a[k - 1];
  }

  // Insertion sort, so that metadata is written in one order.
  method SortStrings(a: array<Bytes>)
    modifies a
    ensures SortedBut(a[..], a.Length, -1) && multiset(a[..]) == multiset(old(a[..]))
  {
    hide Less, Leq, SortedBut;
    SortedStart(a[..], if a.Length == 0 then 0 else 1);
    var i := 1;
    while i < a.Length
      invariant 1 <= i && SortedBut(a[..], if i <= a.Length then i else a.Length, -1)
      invariant multiset(a[..]) == multiset(old(a[..]))
    {
      SortedNext(a[..], i);
      var j := i;
      while j > 0 && Less(a[j], a[j - 1])
        invariant 0 <= j <= i && SortedBut(a[..], i + 1, j) && multiset(a[..]) == multiset(old(a[..]))
      {
        SwapDown(a[..], i + 1, j);
        SwapDownInPlace(a, j);
        j := j - 1;
      }
      Settled(a[..], i + 1, j);
      i := i + 1;
    }
  }

  // Two sorted lists of the same strings are the same list, so the order is determined.
  lemma {:induction false} SortedIsUnique(s: seq<Bytes>, t: seq<Bytes>)
    requires SortedBut(s, |s|, -1) && SortedBut(t, |t|, -1) && multiset(s) == multiset(t)
    ensures s == t
  {
    if s == [] {
      assert |multiset(t)| == 0;
    } else {
      assert s == [s[0]] + s[1..];
      assert s[0] in multiset(t);
      assert t != [];
      assert t == [t[0]] + t[1..];
      assert t[0] in multiset(s);
      var p :| 0 <= p < |s| && s[p] == t[0];
      var q :| 0 <= q < |t| && t[q] == s[0];
      SameHead(s, t, p, q);
      assert multiset(s[1..]) == multiset(s) - multiset{s[0]};
      assert multiset(t[1..]) == multiset(t) - multiset{t[0]};
      SortedTail(s);
      SortedTail(t);
      SortedIsUnique(s[1..], t[1..]);
    }
  }

  lemma SortedTail(s: seq<Bytes>)
    requires SortedBut(s, |s|, -1) && s != []
    ensures SortedBut(s[1..], |s| - 1, -1)
  {
    hide Leq;
    forall p, q | 0 <= p < q < |s| - 1 ensures Leq(s[1..][p], s[1..][q]) {
      assert s[1..][p] == s[p + 1] && s[1..][q] == s[q + 1];
    }
  }

  lemma SameHead(s: seq<Bytes>, t: seq<Bytes>, p: nat, q: nat)
    requires SortedBut(s, |s|, -1) && SortedBut(t, |t|, -1) && p < |s| && q < |t| && s[p] == t[0] && t[q] == s[0]
    ensures s[0] == t[0]
  {
    hide Leq;
    LeqSelf(s[0]);
    Antisymmetric(s[0], t[0]);
  }

  lemma {:induction false} LeqSelf(a: Bytes)
    ensures Leq(a, a)
  {
    if a != [] { LeqSelf(a[1..]); }
  }

  lemma {:induction false} Antisymmetric(a: Bytes, b: Bytes)
    ensures Leq(a, b) && Leq(b, a) ==> a == b
  {
    if a != [] && b != [] && a[0] == b[0] {
      Antisymmetric(a[1..], b[1..]);
      assert a == [a[0]] + a[1..] && b == [b[0]] + b[1..];
    }
  }

  // keys lists the keys of meta once each, in order, as writeMetadata does.
  ghost predicate SortedKeys(keys: seq<Bytes>, meta: map<Bytes, Bytes>) {
    && SortedBut(keys, |keys|, -1) && (forall k :: k in keys <==> k in meta)
    && (forall i, j :: 0 <= i < j < |keys| ==> keys[i] != keys[j])
  }

  lemma {:induction false} OnceEach(s: seq<Bytes>, k: Bytes)
    requires forall i, j :: 0 <= i < j < |s| ==> s[i] != s[j]
    ensures multiset(s)[k] == if k in s then 1 else 0
  {
    if s != [] {
      assert s == [s[0]] + s[1..];
      OnceEach(s[1..], k);
    }
  }

  // Saves are deterministic: equal headers are written as equal bytes, whatever order their metadata maps
  // were ranged over in.
  lemma EqualHeadersEqualBytes(h: Header, keys: seq<Bytes>, other: seq<Bytes>, rest: Bytes)
    requires Int64(h.saveTime) && Int64(h.count) && SortedKeys(keys, h.meta) && SortedKeys(other, h.meta)
    ensures PutHeader(h, keys, rest) == PutHeader(h, other, rest)
  {
    hide PutHeader, SortedBut;
    forall k ensures multiset(keys)[k] == multiset(other)[k] {
      OnceEach(keys, k);
      OnceEach(other, k);
    }
    assert multiset(keys) == multiset(other);
    SortedIsUnique(keys, other);
  }
}
