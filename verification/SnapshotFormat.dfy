/**
 * Which inputs Load accepts (snapshot.go): exactly those in the format written down here, for either
 * version; and exactly when Save completes.
 */
module SnapshotFormat {
  import opened Prelude
  import opened Snapshot

  // -- Fields -------------------------------------------------------------------------------------

  lemma {:induction false} NumOf(b: Bytes)
    ensures Num(b) < Pow256(|b|) && forall rest :: PutNum(|b|, Num(b), rest) == b + rest
  {
    if b != [] {
      NumOf(b[1..]);
      forall rest ensures PutNum(|b|, Num(b), rest) == b + rest {
        assert PutNum(|b|, Num(b), rest) == [b[0]] + PutNum(|b| - 1, Num(b[1..]), rest);
        assert [b[0]] + (b[1..] + rest) == b + rest;
      }
    } else {
      assert forall rest: Bytes :: b + rest == rest;
    }
  }

  // What a number read was written as.
  lemma NumParsed(i: In, n: nat)
    requires GetNum(i, n).Ok?
    ensures var (v, j) := GetNum(i, n).value; i.s == PutNum(n, v, j.s) && v < Pow256(n)
  {
    var b := i.s[..n];
    NumOf(b);
    assert b + i.s[n..] == i.s;
  }

  lemma Int64Parsed(i: In)
    requires GetInt64(i).Ok?
    ensures var (v, j) := GetInt64(i).value; Int64(v) && i.s == PutInt64(v, j.s)
  {
    Powers();
    NumParsed(i, 8);
  }

  // A length prefix takes four bytes.
  const LENGTHS := 4294967296

  lemma BlobParsed(i: In)
    requires GetBlob(i).Ok?
    ensures var (b, j) := GetBlob(i).value; |b| < LENGTHS && i.s == PutBlob(b, j.s)
  {
    Powers();
    NumParsed(i, 4);
    var (n, j) := GetNum(i, 4).value;
    assert j.s[..n] + j.s[n..] == j.s;
  }

  predicate AllShort(bs: seq<Bytes>) {
    forall i :: 0 <= i < |bs| ==> |bs[i]| < LENGTHS
  }

  lemma {:induction false} BlobsParsed(i: In, n: nat)
    requires GetBlobs(i, n).Ok?
    ensures var (bs, j) := GetBlobs(i, n).value; |bs| == n && AllShort(bs) && i.s == PutBlobs(bs, j.s)
    decreases n
  {
    if n > 0 {
      hide GetBlob, PutBlob;
      BlobParsed(i);
      var (b, j) := GetBlob(i).value;
      BlobsParsed(j, n - 1);
      var (bs, k) := GetBlobs(j, n - 1).value;
      assert ([b] + bs)[1..] == bs;
    }
  }

  lemma ShortBlobReads(b: Bytes, rest: Bytes, left: int)
    requires |b| < LENGTHS && 4 + |b| <= left
    ensures GetBlob(In(PutBlob(b, rest), left)) == Ok((b, In(rest, left - 4 - |b|)))
  {
    Powers();
    NumReads(4, |b|, b + rest, left);
    assert (b + rest)[..|b|] == b && (b + rest)[|b|..] == rest;
  }

  lemma {:induction false} ShortBlobsRead(bs: seq<Bytes>, rest: Bytes, left: int)
    requires AllShort(bs) && BlobsSize(bs) <= left
    ensures GetBlobs(In(PutBlobs(bs, rest), left), |bs|) == Ok((bs, In(rest, left - BlobsSize(bs))))
  {
    if bs != [] {
      hide GetBlob, PutBlob;
      ShortBlobReads(bs[0], PutBlobs(bs[1..], rest), left);
      ShortBlobsRead(bs[1..], rest, left - 4 - |bs[0]|);
      assert [bs[0]] + bs[1..] == bs;
    }
  }

  // -- Records ------------------------------------------------------------------------------------

  // A record as it stands in the file.
  datatype Raw = Raw(
    key: Bytes, value: Bytes, expireAt: int, weight: int, inserted: int, hits: nat, flags: nat, slidingTtl: int,
    tags: seq<Bytes>)

  // The widths of its fields; only version 3 has a sliding TTL.
  predicate Shaped(version: nat, x: Raw) {
    && |x.key| < LENGTHS && |x.value| < LENGTHS && Int64(x.expireAt) && Int64(x.weight) && Int64(x.inserted)
    && x.hits < 4294967296 && x.flags < 65536 && Int64(x.slidingTtl) && (version < VERSION ==> x.slidingTtl == 0)
    && |x.tags| < 256 && AllShort(x.tags)
  }

  function TailBytes(version: nat, x: Raw, rest: Bytes): Bytes
    requires Shaped(version, x)
  {
    var tags := PutNum(1, |x.tags|, PutBlobs(x.tags, rest));
    PutNum(4, x.hits, PutNum(2, x.flags, if version >= VERSION then PutInt64(x.slidingTtl, tags) else tags))
  }

  function FieldBytes(version: nat, x: Raw, rest: Bytes): Bytes
    requires Shaped(version, x)
  {
    PutInt64(x.expireAt, PutInt64(x.weight, PutInt64(x.inserted, TailBytes(version, x, rest))))
  }

  function RecordBytes(version: nat, x: Raw, rest: Bytes): Bytes
    requires Shaped(version, x)
  {
    PutBlob(x.key, PutBlob(x.value, FieldBytes(version, x, rest)))
  }

  function RawSize(version: nat, x: Raw): nat {
    8 + |x.key| + |x.value| + (if version >= VERSION then 39 else 31) + BlobsSize(x.tags)
  }

  // What it stands for: its key and value decoded, a sliding entry of version 2 kept with its expiry alone,
  // and nothing with a weight below 1, an unknown flag, or a sliding entry without a sliding TTL.
  function Meaning(e: Env, c: Codec, version: nat, x: Raw, budget: int): Outcome<(Record, int)> {
    var (key, budget) :- Decode(e, c, x.key, budget);
    var (value, budget) :- Decode(e, c, x.value, budget);
    if x.weight < 1 || x.flags !in {0, FLAG_SLIDING} then Fail(Corrupt)
    else if version >= VERSION && x.flags == FLAG_SLIDING && x.slidingTtl <= 0 then Fail(Corrupt)
    else
      var flags := if version >= VERSION then x.flags else 0;
      Ok((Record(key, value, x.expireAt, x.weight, x.inserted, x.hits, flags, x.slidingTtl, x.tags), budget))
  }

  lemma FieldsParsed(version: nat, i: In) returns (x: Raw)
    requires GetFields(version, i).Ok?
    ensures x.key == [] && x.value == [] && Shaped(version, x)
    ensures var (times, counts, tags, j) := GetFields(version, i).value;
      && times == (x.expireAt, x.weight, x.inserted) && counts == (x.hits, x.flags, x.slidingTtl) && tags == x.tags
      && i.s == FieldBytes(version, x, j.s)
  {
    hide GetInt64, GetNum, GetBlobs, PutInt64, PutNum, PutBlobs;
    Powers();
    Int64Parsed(i);
    var (expireAt, i1) := GetInt64(i).value;
    Int64Parsed(i1);
    var (weight, i2) := GetInt64(i1).value;
    Int64Parsed(i2);
    var (inserted, i3) := GetInt64(i2).value;
    NumParsed(i3, 4);
    var (hits, i4) := GetNum(i3, 4).value;
    NumParsed(i4, 2);
    var (flags, i5) := GetNum(i4, 2).value;
    if version >= VERSION { Int64Parsed(i5); }
    var (slidingTtl, i6) := (if version >= VERSION then GetInt64(i5) else Ok((0, i5))).value;
    NumParsed(i6, 1);
    var (n, i7) := GetNum(i6, 1).value;
    BlobsParsed(i7, n);
    var (tags, j) := GetBlobs(i7, n).value;
    x := Raw([], [], expireAt, weight, inserted, hits, flags, slidingTtl, tags);
  }

  lemma RecordParsed(e: Env, c: Codec, version: nat, i: In, budget: int) returns (x: Raw)
    requires GetRecord(e, c, version, i, budget).Ok?
    ensures Shaped(version, x)
    ensures var (r, j, left) := GetRecord(e, c, version, i, budget).value;
      i.s == RecordBytes(version, x, j.s) && Meaning(e, c, version, x, budget) == Ok((r, left))
  {
    hide GetBlob, GetFields, PutBlob, Decode, FieldBytes;
    BlobParsed(i);
    var (key, i1) := GetBlob(i).value;
    BlobParsed(i1);
    var (value, i2) := GetBlob(i1).value;
    var y := FieldsParsed(version, i2);
    x := y.(key := key, value := value);
    SameFields(version, y, x, GetFields(version, i2).value.3.s);
  }

  lemma SameFields(version: nat, x: Raw, y: Raw, rest: Bytes)
    requires Shaped(version, x) && Shaped(version, y) && y == x.(key := y.key, value := y.value)
    ensures FieldBytes(version, x, rest) == FieldBytes(version, y, rest)
  {
  }

  lemma FieldsReadBack(version: nat, x: Raw, rest: Bytes, left: int)
    requires Shaped(version, x) && RawSize(version, x) - 8 - |x.key| - |x.value| <= left
    ensures GetFields(version, In(FieldBytes(version, x, rest), left)) ==
      Ok(((x.expireAt, x.weight, x.inserted), (x.hits, x.flags, x.slidingTtl), x.tags,
          In(rest, left - (RawSize(version, x) - 8 - |x.key| - |x.value|))))
  {
    hide GetInt64, GetNum, GetBlobs, PutInt64, PutNum, PutBlobs;
    Powers();
    var s6 := PutBlobs(x.tags, rest);
    var s5 := PutNum(1, |x.tags|, s6);
    var s4 := if version >= VERSION then PutInt64(x.slidingTtl, s5) else s5;
    var s3 := PutNum(2, x.flags, s4);
    var s2 := PutNum(4, x.hits, s3);
    var s1 := PutInt64(x.inserted, s2);
    var l := left - 30 - if version >= VERSION then 8 else 0;
    Int64Reads(x.expireAt, PutInt64(x.weight, s1), left);
    Int64Reads(x.weight, s1, left - 8);
    Int64Reads(x.inserted, s2, left - 16);
    NumReads(4, x.hits, s3, left - 24);
    NumReads(2, x.flags, s4, left - 28);
    if version >= VERSION { Int64Reads(x.slidingTtl, s5, left - 30); }
    NumReads(1, |x.tags|, s6, l);
    ShortBlobsRead(x.tags, rest, l - 1);
  }

  lemma RecordReadBack(e: Env, c: Codec, version: nat, x: Raw, rest: Bytes, left: int, budget: int)
    requires Shaped(version, x) && RawSize(version, x) <= left && Meaning(e, c, version, x, budget).Ok?
    ensures var (r, b) := Meaning(e, c, version, x, budget).value;
      GetRecord(e, c, version, In(RecordBytes(version, x, rest), left), budget) ==
        Ok((r, In(rest, left - RawSize(version, x)), b))
  {
    hide GetBlob, GetFields, PutBlob, Decode, FieldBytes;
    var fields := FieldBytes(version, x, rest);
    ShortBlobReads(x.key, PutBlob(x.value, fields), left);
    ShortBlobReads(x.value, fields, left - 4 - |x.key|);
    FieldsReadBack(version, x, rest, left - 8 - |x.key| - |x.value|);
  }

  predicate AllShaped(version: nat, xs: seq<Raw>) {
    forall i :: 0 <= i < |xs| ==> Shaped(version, xs[i])
  }

  function RunBytes(version: nat, xs: seq<Raw>, rest: Bytes): Bytes
    requires AllShaped(version, xs)
  {
    if xs == [] then rest else RecordBytes(version, xs[0], RunBytes(version, xs[1..], rest))
  }

  function RunSize(version: nat, xs: seq<Raw>): nat {
    if xs == [] then 0 else RawSize(version, xs[0]) + RunSize(version, xs[1..])
  }

  // The records in turn, all from one budget.
  function Meanings(e: Env, c: Codec, version: nat, xs: seq<Raw>, budget: int): Outcome<(seq<Record>, int)> {
    if xs == [] then Ok(([], budget))
    else
      var (r, budget) :- Meaning(e, c, version, xs[0], budget);
      var (rs, budget) :- Meanings(e, c, version, xs[1..], budget);
      Ok(([r] + rs, budget))
  }

  lemma {:induction false} RunParsed(e: Env, c: Codec, version: nat, i: In, n: nat, budget: int) returns (xs: seq<Raw>)
    requires GetRecords(e, c, version, i, n, budget).Ok?
    ensures |xs| == n && AllShaped(version, xs)
    ensures var (rs, j, b) := GetRecords(e, c, version, i, n, budget).value;
      i.s == RunBytes(version, xs, j.s) && Meanings(e, c, version, xs, budget) == Ok((rs, b))
    decreases n
  {
    hide GetRecord, RecordBytes, Meaning, Shaped;
    xs := [];
    if n > 0 {
      var x := RecordParsed(e, c, version, i, budget);
      var (r, j, b) := GetRecord(e, c, version, i, budget).value;
      var ys := RunParsed(e, c, version, j, n - 1, b);
      xs := [x] + ys;
      assert xs[1..] == ys;
    }
  }

  lemma {:induction false} RunReadBack(
    e: Env, c: Codec, version: nat, xs: seq<Raw>, rest: Bytes, left: int, budget: int)
    requires AllShaped(version, xs) && RunSize(version, xs) <= left && Meanings(e, c, version, xs, budget).Ok?
    ensures var (rs, b) := Meanings(e, c, version, xs, budget).value;
      GetRecords(e, c, version, In(RunBytes(version, xs, rest), left), |xs|, budget) ==
        Ok((rs, In(rest, left - RunSize(version, xs)), b))
  {
    hide GetRecord, RecordBytes, Meaning, Shaped, RawSize;
    if xs != [] {
      var (r, b) := Meaning(e, c, version, xs[0], budget).value;
      RecordReadBack(e, c, version, xs[0], RunBytes(version, xs[1..], rest), left, budget);
      RunReadBack(e, c, version, xs[1..], rest, left - RawSize(version, xs[0]), b);
    }
  }

  // Sizes, and what a longer tail adds.
  lemma RecordGrows(version: nat, x: Raw, t: Bytes, rest: Bytes)
    requires Shaped(version, x)
    ensures |RecordBytes(version, x, t)| == RawSize(version, x) + |t|
    ensures RecordBytes(version, x, t + rest) == RecordBytes(version, x, t) + rest
  {
    hide PutNum, PutBlob, PutBlobs, PutInt64;
    var s6 := PutBlobs(x.tags, t);
    var s5 := PutNum(1, |x.tags|, s6);
    var s4 := if version >= VERSION then PutInt64(x.slidingTtl, s5) else s5;
    var s3 := PutNum(2, x.flags, s4);
    var s2 := PutNum(4, x.hits, s3);
    var s1 := PutInt64(x.inserted, s2);
    var s0 := PutInt64(x.weight, s1);
    PutBlobsSize(x.tags, t, rest);
    PutNumSize(1, |x.tags|, s6, rest);
    if version >= VERSION { PutInt64Size(x.slidingTtl, s5, rest); }
    PutNumSize(2, x.flags, s4, rest);
    PutNumSize(4, x.hits, s3, rest);
    PutInt64Size(x.inserted, s2, rest);
    PutInt64Size(x.weight, s1, rest);
    PutInt64Size(x.expireAt, s0, rest);
    PutBlobSize(x.value, PutInt64(x.expireAt, s0), rest);
    PutBlobSize(x.key, PutBlob(x.value, PutInt64(x.expireAt, s0)), rest);
  }

  lemma {:induction false} RunGrows(version: nat, xs: seq<Raw>, rest: Bytes)
    requires AllShaped(version, xs)
    ensures |RunBytes(version, xs, [])| == RunSize(version, xs)
    ensures RunBytes(version, xs, rest) == RunBytes(version, xs, []) + rest
  {
    hide RecordBytes, RawSize, Shaped;
    if xs != [] {
      RunGrows(version, xs[1..], rest);
      RecordGrows(version, xs[0], RunBytes(version, xs[1..], []), rest);
    }
  }

  // -- The header ---------------------------------------------------------------------------------

  // The header with its metadata as a list of keys and values in turn, in any order.
  predicate HeaderShaped(h: Header, pairs: seq<Bytes>) {
    && h.version in {VERSION, VERSION_V2} && |h.codec| < LENGTHS && |h.name| < LENGTHS
    && |pairs| % 2 == 0 && |pairs| / 2 < 65536 && AllShort(pairs) && h.meta == FromPairs(pairs)
    && Int64(h.saveTime) && Int64(h.count)
  }

  function HeaderBytes(h: Header, pairs: seq<Bytes>, rest: Bytes): Bytes
    requires HeaderShaped(h, pairs)
  {
    MAGIC + PutNum(1, h.version, PutBlob(h.codec, PutBlob(h.name, PutNum(2, |pairs| / 2,
      PutBlobs(pairs, PutInt64(h.saveTime, PutInt64(h.count, rest)))))))
  }

  function HeaderLength(h: Header, pairs: seq<Bytes>): nat {
    31 + |h.codec| + |h.name| + BlobsSize(pairs)
  }

  lemma HeaderParsed(i: In) returns (pairs: seq<Bytes>)
    requires GetHeader(i).Ok?
    ensures var (h, j) := GetHeader(i).value; HeaderShaped(h, pairs) && i.s == HeaderBytes(h, pairs, j.s)
  {
    hide GetInt64, GetNum, GetBlob, GetBlobs, PutInt64, PutNum, PutBlob, PutBlobs, FromPairs;
    Powers();
    var (magic, i0) := Take(i, 4).value;
    NumParsed(i0, 1);
    var (version, i1) := GetNum(i0, 1).value;
    BlobParsed(i1);
    var (codec, i2) := GetBlob(i1).value;
    BlobParsed(i2);
    var (name, i3) := GetBlob(i2).value;
    NumParsed(i3, 2);
    var (n, i4) := GetNum(i3, 2).value;
    BlobsParsed(i4, 2 * n);
    var (bs, i5) := GetBlobs(i4, 2 * n).value;
    Int64Parsed(i5);
    var (saveTime, i6) := GetInt64(i5).value;
    Int64Parsed(i6);
    pairs := bs;
    assert magic + i0.s == i.s;
  }

  lemma HeaderReadBack(h: Header, pairs: seq<Bytes>, rest: Bytes, left: int)
    requires HeaderShaped(h, pairs) && HeaderLength(h, pairs) <= left
    ensures GetHeader(In(HeaderBytes(h, pairs, rest), left)) == Ok((h, In(rest, left - HeaderLength(h, pairs))))
  {
    hide GetInt64, GetNum, GetBlob, GetBlobs, PutInt64, PutNum, PutBlob, PutBlobs, FromPairs;
    Powers();
    var s6 := PutInt64(h.count, rest);
    var s5 := PutInt64(h.saveTime, s6);
    var s4 := PutBlobs(pairs, s5);
    var s3 := PutNum(2, |pairs| / 2, s4);
    var s2 := PutBlob(h.name, s3);
    var s1 := PutBlob(h.codec, s2);
    var s0 := PutNum(1, h.version, s1);
    assert (MAGIC + s0)[..4] == MAGIC && (MAGIC + s0)[4..] == s0;
    NumReads(1, h.version, s1, left - 4);
    ShortBlobReads(h.codec, s2, left - 5);
    ShortBlobReads(h.name, s3, left - 9 - |h.codec|);
    var l := left - 13 - |h.codec| - |h.name|;
    NumReads(2, |pairs| / 2, s4, l);
    assert 2 * (|pairs| / 2) == |pairs|;
    ShortBlobsRead(pairs, s5, l - 2);
    Int64Reads(h.saveTime, s6, l - 2 - BlobsSize(pairs));
    Int64Reads(h.count, rest, l - 10 - BlobsSize(pairs));
  }

  lemma HeaderGrows(h: Header, pairs: seq<Bytes>, rest: Bytes)
    requires HeaderShaped(h, pairs)
    ensures |HeaderBytes(h, pairs, [])| == HeaderLength(h, pairs)
    ensures HeaderBytes(h, pairs, rest) == HeaderBytes(h, pairs, []) + rest
  {
    hide PutNum, PutBlob, PutBlobs, PutInt64, FromPairs;
    var s6 := PutInt64(h.count, []);
    var s5 := PutInt64(h.saveTime, s6);
    var s4 := PutBlobs(pairs, s5);
    var s3 := PutNum(2, |pairs| / 2, s4);
    var s2 := PutBlob(h.name, s3);
    var s1 := PutBlob(h.codec, s2);
    assert [] + rest == rest;
    PutInt64Size(h.count, [], rest);
    PutInt64Size(h.saveTime, s6, rest);
    PutBlobsSize(pairs, s5, rest);
    PutNumSize(2, |pairs| / 2, s4, rest);
    PutBlobSize(h.name, s3, rest);
    PutBlobSize(h.codec, s2, rest);
    PutNumSize(1, h.version, s1, rest);
    assert MAGIC + (PutNum(1, h.version, s1) + rest) == MAGIC + PutNum(1, h.version, s1) + rest;
  }

  // -- Whole snapshots ----------------------------------------------------------------------------

  // The bytes of a snapshot and how they are made up; sealed is the encrypted body, if any.
  datatype Parts = Parts(header: Bytes, body: Bytes, rest: Bytes, pairs: seq<Bytes>, xs: seq<Raw>, sealed: Bytes)

  // The body holds the records, in the clear or, in version 3, as one sealed block bound to the header.
  predicate BodyInFormat(e: Env, codec: Codec, h: Header, p: Parts) {
    && |p.xs| == h.count && AllShaped(h.version, p.xs)
    && match Split(codec).1
       case None => p.body == RunBytes(h.version, p.xs, [])
       case Some(k) =>
         && h.version == VERSION && |p.sealed| <= MAX_INT64 && p.body == PutNum(8, |p.sealed|, p.sealed)
         && e.open(k, p.sealed, p.header) == Some(RunBytes(VERSION, p.xs, []))
  }

  predicate InFormat(e: Env, codec: Codec, limit: int, input: Bytes, h: Header, rs: seq<Record>, p: Parts) {
    && HeaderShaped(h, p.pairs) && p.header == HeaderBytes(h, p.pairs, []) && h.codec == CodecName(codec)
    && BodyInFormat(e, codec, h, p)
    && Meanings(e, Split(codec).0, h.version, p.xs, InflateLimit(limit)).Ok?
    && Meanings(e, Split(codec).0, h.version, p.xs, InflateLimit(limit)).value.0 == rs
    && e.crc(p.header + p.body) < 4294967296
    && input == p.header + p.body + PutNum(4, e.crc(p.header + p.body), p.rest)
    && |p.header| + |p.body| + 4 <= limit
  }

  lemma BodyParsed(e: Env, codec: Codec, i: In, h: Header, header: Bytes, limit: int)
    returns (xs: seq<Raw>, sealed: Bytes, body: Bytes)
    requires GetBody(e, codec, h.version, i, header, h.count, limit).Ok? && h.version in {VERSION, VERSION_V2}
    requires 0 <= i.left <= MAX_INT64
    ensures BodyInFormat(e, codec, h, Parts(header, body, [], [], xs, sealed))
    ensures var (rs, j) := GetBody(e, codec, h.version, i, header, h.count, limit).value;
      && i.s == body + j.s && Meanings(e, Split(codec).0, h.version, xs, InflateLimit(limit)).Ok?
      && Meanings(e, Split(codec).0, h.version, xs, InflateLimit(limit)).value.0 == rs
  {
    hide GetRecords, RunBytes, GetNum, PutNum, Split, Meanings, InflateLimit;
    var (rec, key) := Split(codec);
    var budget := InflateLimit(limit);
    var (rs, j) := GetBody(e, codec, h.version, i, header, h.count, limit).value;
    match key {
      case None =>
        xs := RunParsed(e, rec, h.version, i, h.count, budget);
        sealed, body := [], RunBytes(h.version, xs, []);
        RunGrows(h.version, xs, j.s);
      case Some(k) =>
        NumParsed(i, 8);
        var (n, i1) := GetNum(i, 8).value;
        sealed := i1.s[..n];
        var plain := e.open(k, sealed, header).value;
        xs := RunParsed(e, rec, VERSION, In(plain, |plain|), h.count, budget);
        body := PutNum(8, n, sealed);
        PutNumSize(8, n, sealed, i1.s[n..]);
        assert i1.s == sealed + i1.s[n..];
        assert GetRecords(e, rec, VERSION, In(plain, |plain|), h.count, budget).value.1.s == [];
    }
  }

  // Whatever Load accepts is in the format.
  lemma LoadedIsInFormat(e: Env, codec: Codec, limit: int, input: Bytes) returns (p: Parts)
    requires ReadSnapshot(e, codec, limit, input).Ok? && limit <= MAX_INT64
    ensures var (h, rs) := ReadSnapshot(e, codec, limit, input).value; InFormat(e, codec, limit, input, h, rs, p)
  {
    hide GetHeader, GetBody, GetNum, PutNum, HeaderBytes, HeaderShaped, BodyInFormat, Meanings, CodecName, Split;
    var (h, i) := GetHeader(In(input, limit)).value;
    var pairs := HeaderParsed(In(input, limit));
    HeaderGrows(h, pairs, i.s);
    var header := HeaderBytes(h, pairs, []);
    assert input[..|input| - |i.s|] == header;
    VersionKnown(h, pairs);
    Taken(In(input, limit));
    var (rs, j) := GetBody(e, codec, h.version, i, header, h.count, limit).value;
    var xs, sealed, body := BodyParsed(e, codec, i, h, header, limit);
    assert input == header + body + j.s;
    assert input[..|input| - |j.s|] == header + body;
    NumParsed(j, 4);
    Powers();
    var (_, k) := GetNum(j, 4).value;
    p := Parts(header, body, k.s, pairs, xs, sealed);
    SameBody(e, codec, h, Parts(header, body, [], [], xs, sealed), p);
    PutNumSize(4, e.crc(header + body), k.s, []);
  }

  lemma VersionKnown(h: Header, pairs: seq<Bytes>)
    requires HeaderShaped(h, pairs)
    ensures h.version in {VERSION, VERSION_V2}
  {
  }

  lemma Taken(i: In)
    requires GetHeader(i).Ok?
    ensures 0 <= GetHeader(i).value.1.left <= i.left
  {
    var (magic, i0) := Take(i, 4).value;
    hide GetInt64, GetNum, GetBlob, GetBlobs;
  }

  lemma SameBody(e: Env, codec: Codec, h: Header, p: Parts, q: Parts)
    requires BodyInFormat(e, codec, h, p)
    requires q.header == p.header && q.body == p.body && q.xs == p.xs && q.sealed == p.sealed
    ensures BodyInFormat(e, codec, h, q)
  {
  }

  lemma BodyReadBack(e: Env, codec: Codec, h: Header, p: Parts, rest: Bytes, left: int, limit: int)
    requires BodyInFormat(e, codec, h, p) && 0 <= |p.body| <= left <= MAX_INT64
    requires Meanings(e, Split(codec).0, h.version, p.xs, InflateLimit(limit)).Ok?
    ensures GetBody(e, codec, h.version, In(p.body + rest, left), p.header, h.count, limit) ==
      Ok((Meanings(e, Split(codec).0, h.version, p.xs, InflateLimit(limit)).value.0, In(rest, left - |p.body|)))
  {
    hide GetRecords, RunBytes, GetNum, PutNum, Split, Meanings, InflateLimit;
    var (rec, key) := Split(codec);
    var budget := InflateLimit(limit);
    match key {
      case None =>
        RunGrows(h.version, p.xs, rest);
        RunReadBack(e, rec, h.version, p.xs, rest, left, budget);
      case Some(k) =>
        Powers();
        PutNumSize(8, |p.sealed|, p.sealed, rest);
        NumReads(8, |p.sealed|, p.sealed + rest, left);
        assert (p.sealed + rest)[..|p.sealed|] == p.sealed && (p.sealed + rest)[|p.sealed|..] == rest;
        var plain := RunBytes(VERSION, p.xs, []);
        RunGrows(VERSION, p.xs, []);
        RunReadBack(e, rec, VERSION, p.xs, [], |plain|, budget);
    }
  }

  // The reads of a snapshot in the format, one after another.
  lemma FormatSteps(e: Env, codec: Codec, limit: int, input: Bytes, h: Header, rs: seq<Record>, p: Parts)
    requires InFormat(e, codec, limit, input, h, rs, p) && limit <= MAX_INT64
    ensures var trailer := PutNum(4, e.crc(p.header + p.body), p.rest);
      && GetHeader(In(input, limit)) == Ok((h, In(p.body + trailer, limit - |p.header|)))
      && input[..|input| - |p.body + trailer|] == p.header && input[..|input| - |trailer|] == p.header + p.body
      && GetBody(e, codec, h.version, In(p.body + trailer, limit - |p.header|), p.header, h.count, limit) ==
           Ok((rs, In(trailer, limit - |p.header| - |p.body|)))
      && GetNum(In(trailer, limit - |p.header| - |p.body|), 4) ==
           Ok((e.crc(p.header + p.body), In(p.rest, limit - |p.header| - |p.body| - 4)))
  {
    hide GetHeader, GetBody, GetNum, PutNum, HeaderBytes, HeaderShaped, BodyInFormat, Meanings, CodecName, Split;
    var trailer := PutNum(4, e.crc(p.header + p.body), p.rest);
    HeaderGrows(h, p.pairs, p.body + trailer);
    HeaderReadBack(h, p.pairs, p.body + trailer, limit);
    assert input == p.header + (p.body + trailer);
    BodyReadBack(e, codec, h, p, trailer, limit - |p.header|, limit);
    Powers();
    NumReads(4, e.crc(p.header + p.body), p.rest, limit - |p.header| - |p.body|);
  }

  // Load accepts an input as a header and records if and only if the input is in the format and stands for
  // them: the CRC of header and body in its trailer, the codec's name and the record count in its header,
  // every record acceptable, and all of it within the limit and the decompression budget.
  lemma LoadsIffInFormat(e: Env, codec: Codec, limit: int, input: Bytes, h: Header, rs: seq<Record>)
    requires limit <= MAX_INT64
    ensures ReadSnapshot(e, codec, limit, input) == Ok((h, rs)) <==>
      exists p :: InFormat(e, codec, limit, input, h, rs, p)
  {
    hide InFormat, GetHeader, GetBody, GetNum;
    if ReadSnapshot(e, codec, limit, input) == Ok((h, rs)) {
      var p := LoadedIsInFormat(e, codec, limit, input);
    }
    if p :| InFormat(e, codec, limit, input, h, rs, p) {
      FormatSteps(e, codec, limit, input, h, rs, p);
      NamesCodec(e, codec, limit, input, h, rs, p);
    }
  }

  lemma NamesCodec(e: Env, codec: Codec, limit: int, input: Bytes, h: Header, rs: seq<Record>, p: Parts)
    requires InFormat(e, codec, limit, input, h, rs, p)
    ensures h.codec == CodecName(codec)
  {
  }

  lemma {:induction false} MeaningsCount(e: Env, c: Codec, version: nat, xs: seq<Raw>, budget: int)
    requires Meanings(e, c, version, xs, budget).Ok?
    ensures |Meanings(e, c, version, xs, budget).value.0| == |xs|
    ensures AllAcceptable(Meanings(e, c, version, xs, budget).value.0)
  {
    if xs != [] {
      hide Decode;
      MeaningsCount(e, c, version, xs[1..], Meaning(e, c, version, xs[0], budget).value.1);
    }
  }

  // So what loads has as many records as its header says, all acceptable.
  lemma LoadsAcceptable(e: Env, codec: Codec, limit: int, input: Bytes)
    requires ReadSnapshot(e, codec, limit, input).Ok? && limit <= MAX_INT64
    ensures var (h, rs) := ReadSnapshot(e, codec, limit, input).value; |rs| == h.count && AllAcceptable(rs)
  {
    hide ReadSnapshot, HeaderBytes, CodecName, Meanings;
    var p := LoadedIsInFormat(e, codec, limit, input);
    var (h, rs) := ReadSnapshot(e, codec, limit, input).value;
    MeaningsCount(e, Split(codec).0, h.version, p.xs, InflateLimit(limit));
  }

  // -- Damaged saves ------------------------------------------------------------------------------

  lemma SavedHeader(e: Env, codec: Codec, limit: int, h: Header, keys: seq<Bytes>, rs: seq<Record>, tail: Bytes)
    returns (header: Bytes, body: Bytes, crc: Bytes)
    requires AllWellformed(rs) && limit > 0 && Int64(h.saveTime) && Int64(h.count)
    requires forall k :: k in keys ==> k in h.meta
    requires SaveTo(e, codec, limit, h, keys, rs).Ok?
    ensures SaveTo(e, codec, limit, h, keys, rs).value == header + body + crc && |crc| == 4
    ensures crc == PutNum(4, e.crc(header + body), []) && PutBody(e, codec, rs, header, limit) == Ok(body)
    ensures HeaderWritable(h, keys) && |header| == HeaderSize(h, keys) && |header| + |body| + 4 <= limit
    ensures PutHeader(h, keys, tail) == header + tail
  {
    hide PutHeader, PutBody, PutNum, HeaderSize, HeaderWritable, SaveTo;
    header, body, crc := SavedParts(e, codec, limit, h, keys, rs, []);
    var s := SaveTo(e, codec, limit, h, keys, rs).value;
    assert s + [] == s && header + (body + crc) == header + body + crc;
    PutHeaderSize(h, keys, [], body + crc);
    PutHeaderSize(h, keys, [], tail);
    assert [] + (body + crc) == body + crc && [] + tail == tail;
    assert (header + (body + crc))[..|header|] == header;
    assert (PutHeader(h, keys, []) + (body + crc))[..|header|] == PutHeader(h, keys, []);
  }

  lemma TrailerIs(t: Bytes, v: nat)
    requires |t| == 4 && v < 4294967296
    ensures t == PutNum(4, v, []) <==> Num(t) == v
  {
    Powers();
    NumOf(t);
    PutNumTakes(4, v, []);
    assert t + [] == t;
    assert PutNum(4, v, [])[..4] == PutNum(4, v, []);
  }

  // A completed save whose trailer is replaced by any four bytes loads only if they are the same; otherwise
  // it is refused as corrupt, as is one with a record that is not acceptable.
  lemma WrongTrailer(
    e: Env, codec: Codec, limit: int, h: Header, keys: seq<Bytes>, rs: seq<Record>, t: Bytes, rest: Bytes)
    requires Invertible(e) && AllWellformed(rs) && 0 < limit <= MAX_INT64
    requires Int64(h.saveTime) && Int64(h.count)
    requires h.version == VERSION && h.count == |rs| && h.codec == CodecName(codec)
    requires forall k :: k in keys <==> k in h.meta
    requires SaveTo(e, codec, limit, h, keys, rs).Ok? && |t| == 4
    ensures var s := SaveTo(e, codec, limit, h, keys, rs).value;
      && |s| >= 4
      && ReadSnapshot(e, codec, limit, s[..|s| - 4] + t + rest) ==
         if AllAcceptable(rs) && t == s[|s| - 4..] then Ok((h, rs)) else Fail(Corrupt)
  {
    hide GetHeader, PutHeader, GetBody, PutBody, GetNum, PutNum, CodecName, HeaderSize, HeaderWritable;
    hide Invertible, SaveTo, AllAcceptable;
    var header, body, crc := SavedHeader(e, codec, limit, h, keys, rs, []);
    var header', body', crc' := SavedHeader(e, codec, limit, h, keys, rs, body + (t + rest));
    SameHeader(e, codec, limit, h, keys, rs, header, header');
    var s, tail := SaveTo(e, codec, limit, h, keys, rs).value, t + rest;
    var input := header + (body + tail);
    assert s[..|s| - 4] == header + body && s[|s| - 4..] == crc;
    assert s[..|s| - 4] + t + rest == input;
    HeaderReads(h, keys, body + tail, limit);
    assert input[..|input| - |body + tail|] == header;
    if AllAcceptable(rs) {
      BodyReads(e, codec, rs, header, limit, tail, limit - |header|);
      assert input[..|input| - |tail|] == header + body;
      CrcFits(e, header + body);
      TrailerIs(t, e.crc(header + body));
      TailReads(t, rest, limit - |header| - |body|);
    } else {
      BodyRefused(e, codec, rs, header, limit, tail, limit - |header|);
    }
  }

  lemma SameHeader(
    e: Env, codec: Codec, limit: int, h: Header, keys: seq<Bytes>, rs: seq<Record>, a: Bytes, b: Bytes)
    requires Int64(h.saveTime) && Int64(h.count) && forall k :: k in keys ==> k in h.meta
    requires |a| == |b| == HeaderSize(h, keys) && PutHeader(h, keys, []) == a + []
    requires exists tail :: PutHeader(h, keys, tail) == b + tail
    ensures a == b
  {
    hide PutHeader, HeaderSize;
    var tail :| PutHeader(h, keys, tail) == b + tail;
    PutHeaderSize(h, keys, [], tail);
    assert [] + tail == tail && a + [] == a;
    assert (a + tail)[..|a|] == a && (b + tail)[..|a|] == b;
  }

  lemma TailReads(t: Bytes, rest: Bytes, left: int)
    requires |t| == 4 <= left
    ensures GetNum(In(t + rest, left), 4) == Ok((Num(t), In(rest, left - 4)))
  {
    assert (t + rest)[..4] == t && (t + rest)[4..] == rest;
  }

  // A save cut short anywhere never loads.
  lemma TornSaveNeverLoads(e: Env, codec: Codec, limit: int, h: Header, keys: seq<Bytes>, rs: seq<Record>, m: nat)
    requires Invertible(e) && AllWellformed(rs) && 0 < limit <= MAX_INT64
    requires Int64(h.saveTime) && Int64(h.count)
    requires h.version == VERSION && h.count == |rs| && h.codec == CodecName(codec)
    requires forall k :: k in keys <==> k in h.meta
    requires SaveTo(e, codec, limit, h, keys, rs).Ok? && m < |SaveTo(e, codec, limit, h, keys, rs).value|
    ensures ReadSnapshot(e, codec, limit, SaveTo(e, codec, limit, h, keys, rs).value[..m]).Fail?
  {
    hide SaveTo, ReadSnapshot, InFormat, Invertible, CodecName;
    var s := SaveTo(e, codec, limit, h, keys, rs).value;
    if ReadSnapshot(e, codec, limit, s[..m]).Ok? {
      var p := LoadedIsInFormat(e, codec, limit, s[..m]);
      var (h', rs') := ReadSnapshot(e, codec, limit, s[..m]).value;
      var q := p.(rest := p.rest + s[m..]);
      Extended(e, codec, limit, s[..m], s[m..], h', rs', p);
      assert s[..m] + s[m..] == s;
      LoadsIffInFormat(e, codec, limit, s, h', rs');
      LoadsIffAcceptable(e, codec, limit, h, keys, rs, []);
      assert s + [] == s;
      NothingFollows(e, codec, limit, h, keys, rs, q);
      assert false;
    }
  }

  lemma Extended(e: Env, codec: Codec, limit: int, s: Bytes, more: Bytes, h: Header, rs: seq<Record>, p: Parts)
    requires InFormat(e, codec, limit, s, h, rs, p)
    ensures InFormat(e, codec, limit, s + more, h, rs, p.(rest := p.rest + more))
  {
    hide PutNum, HeaderBytes, HeaderShaped, Meanings, CodecName, Split, RunBytes;
    PutNumSize(4, e.crc(p.header + p.body), p.rest, more);
  }

  lemma NothingFollows(
    e: Env, codec: Codec, limit: int, h: Header, keys: seq<Bytes>, rs: seq<Record>, p: Parts)
    requires Invertible(e) && AllWellformed(rs) && AllAcceptable(rs) && 0 < limit <= MAX_INT64
    requires Int64(h.saveTime) && Int64(h.count)
    requires h.version == VERSION && h.count == |rs| && h.codec == CodecName(codec)
    requires forall k :: k in keys <==> k in h.meta
    requires SaveTo(e, codec, limit, h, keys, rs).Ok?
    requires InFormat(e, codec, limit, SaveTo(e, codec, limit, h, keys, rs).value, h, rs, p)
    ensures p.rest == []
  {
    hide GetHeader, PutHeader, GetBody, PutBody, GetNum, PutNum, CodecName, HeaderSize, HeaderWritable;
    hide Invertible, SaveTo, AllAcceptable, InFormat;
    var s := SaveTo(e, codec, limit, h, keys, rs).value;
    var header, body, t := SavedParts(e, codec, limit, h, keys, rs, []);
    assert s + [] == s;
    HeaderReads(h, keys, body + t, limit);
    BodyReads(e, codec, rs, header, limit, t, limit - |header|);
    FormatSteps(e, codec, limit, s, h, rs, p);
    PutNumSize(4, e.crc(p.header + p.body), p.rest, []);
    assert s[..|s| - |body + t|] == header;
  }

  // -- When a save completes ----------------------------------------------------------------------

  // An item through the layers of a codec, if each takes it: the bytes, what the compressing layers took in,
  // and the next nonce.
  function Layers(e: Env, c: Codec, x: Item, n: nat): Option<(Bytes, nat, nat)> {
    match c
    case Base(name) => (match e.marshal(name, x) case Some(b) => Some((b, 0, n)) case None => None)
    case Compressed(base) =>
      (match Layers(e, base, x, n)
       case Some((raw, cost, n)) => Some((e.gzip(raw), cost + |raw|, n))
       case None => None)
    case Encrypted(base, key) =>
      match Layers(e, base, x, n)
      case Some((plain, cost, n)) =>
        (match e.seal(key, n, plain, []) case Some(b) => Some((b, cost, n + 1)) case None => None)
      case None => None
  }

  lemma {:induction false} EncodesIff(e: Env, c: Codec, x: Item, left: nat, n: nat)
    ensures Encode(e, c, x, left, n).Ok? <==> Layers(e, c, x, n).Some? && Layers(e, c, x, n).value.1 <= left
    ensures Encode(e, c, x, left, n).Ok? ==>
      var (b, cost, m) := Layers(e, c, x, n).value; Encode(e, c, x, left, n) == Ok((b, left - cost, m))
  {
    match c {
      case Base(_) =>
      case Compressed(base) => EncodesIff(e, base, x, left, n);
      case Encrypted(base, _) => EncodesIff(e, base, x, left, n);
    }
  }

  // The keys and values of the records, encoded one after another.
  function Laid(e: Env, c: Codec, rs: seq<Record>, n: nat): Option<(seq<(Bytes, Bytes)>, nat, nat)> {
    if rs == [] then Some(([], 0, n))
    else
      match Layers(e, c, rs[0].key, n)
      case None => None
      case Some((key, kc, n)) =>
        match Layers(e, c, rs[0].value, n)
        case None => None
        case Some((value, vc, n)) =>
          match Laid(e, c, rs[1..], n)
          case None => None
          case Some((tail, cost, n)) => Some(([(key, value)] + tail, kc + vc + cost, n))
  }

  // Keys, values and tags under 2 GiB, and at most 255 tags.
  predicate FieldsFit(key: Bytes, value: Bytes, r: Record) {
    && |key| <= 2147483647 && |value| <= 2147483647 && |r.tags| <= 255
    && forall i :: 0 <= i < |r.tags| ==> |r.tags[i]| <= 2147483647
  }

  predicate AllWritable(rs: seq<Record>, kvs: seq<(Bytes, Bytes)>) {
    |kvs| == |rs| && forall i :: 0 <= i < |rs| ==> FieldsFit(kvs[i].0, kvs[i].1, rs[i])
  }

  function TotalSize(rs: seq<Record>, kvs: seq<(Bytes, Bytes)>): nat
    requires |kvs| == |rs|
  {
    if rs == [] then 0 else RecordSize(kvs[0].0, kvs[0].1, rs[0]) + TotalSize(rs[1..], kvs[1..])
  }

  // The records' bytes, of encoded keys and values.
  function Clear(rs: seq<Record>, kvs: seq<(Bytes, Bytes)>): Bytes
    requires |kvs| == |rs| && AllWellformed(rs)
  {
    if rs == [] then [] else PutRecord(kvs[0].0, kvs[0].1, rs[0], Clear(rs[1..], kvs[1..]))
  }

  lemma {:induction false} ClearSize(rs: seq<Record>, kvs: seq<(Bytes, Bytes)>)
    requires |kvs| == |rs| && AllWellformed(rs)
    ensures |Clear(rs, kvs)| == TotalSize(rs, kvs)
  {
    hide PutRecord, RecordSize;
    if rs != [] {
      ClearSize(rs[1..], kvs[1..]);
      PutRecordSize(kvs[0].0, kvs[0].1, rs[0], Clear(rs[1..], kvs[1..]), []);
    }
  }

  lemma LaidFirst(e: Env, c: Codec, rs: seq<Record>, n: nat, key: Bytes, kc: nat, m: nat, value: Bytes, vc: nat, l: nat)
    requires rs != [] && Layers(e, c, rs[0].key, n) == Some((key, kc, m))
    requires Layers(e, c, rs[0].value, m) == Some((value, vc, l))
    ensures Laid(e, c, rs, n).Some? <==> Laid(e, c, rs[1..], l).Some?
    ensures Laid(e, c, rs, n).Some? ==>
      var (tail, cost, k) := Laid(e, c, rs[1..], l).value;
      Laid(e, c, rs, n) == Some(([(key, value)] + tail, kc + vc + cost, k))
  {
    hide Layers;
  }

  lemma WritableFirst(rs: seq<Record>, key: Bytes, value: Bytes, tail: seq<(Bytes, Bytes)>)
    requires rs != [] && AllWellformed(rs)
    ensures AllWritable(rs, [(key, value)] + tail) <==> FieldsFit(key, value, rs[0]) && AllWritable(rs[1..], tail)
    ensures AllWritable(rs, [(key, value)] + tail) ==>
      Clear(rs, [(key, value)] + tail) == PutRecord(key, value, rs[0], Clear(rs[1..], tail))
  {
    hide FieldsFit, PutRecord;
    var kvs := [(key, value)] + tail;
    assert kvs[1..] == tail;
    assert forall i :: 0 < i < |kvs| ==> kvs[i] == tail[i - 1];
    if |tail| == |rs| - 1 {
      assert forall i :: 0 <= i < |tail| ==> kvs[i + 1] == tail[i] && rs[1..][i] == rs[i + 1];
    }
  }

  // The records are written as kvs, spending cost.
  ghost predicate WritesAs(e: Env, c: Codec, rs: seq<Record>, left: int, n: nat)
    requires AllWellformed(rs)
  {
    && Laid(e, c, rs, n).Some? && AllWritable(rs, Laid(e, c, rs, n).value.0)
    && var (kvs, cost, m) := Laid(e, c, rs, n).value;
       cost <= left && PutRecords(e, c, rs, left, n, []) == Ok((Clear(rs, kvs), left - cost, m))
  }

  lemma {:induction false} WrittenIsLaid(e: Env, c: Codec, rs: seq<Record>, left: nat, n: nat)
    requires AllWellformed(rs) && PutRecords(e, c, rs, left, n, []).Ok?
    ensures WritesAs(e, c, rs, left, n)
  {
    hide Layers, Encode, PutRecord, Laid, Clear, PutRecords, FieldsFit, Writable;
    if rs == [] {
      NothingLaid(e, c, left, n);
    } else {
      var key, mid, m, value, far, l := PutRecordsStep(e, c, rs, left, n, []);
      FitsIff(key, value, rs[0]);
      EncodesIff(e, c, rs[0].key, left, n);
      EncodesIff(e, c, rs[0].value, mid, m);
      WrittenIsLaid(e, c, rs[1..], far, l);
      LaidFirst(e, c, rs, n, key, left - mid, m, value, mid - far, l);
      WritableFirst(rs, key, value, Laid(e, c, rs[1..], l).value.0);
    }
  }

  lemma NothingLaid(e: Env, c: Codec, left: nat, n: nat)
    ensures WritesAs(e, c, [], left, n)
  {
  }

  lemma {:induction false} LaidIsWritten(e: Env, c: Codec, rs: seq<Record>, left: nat, n: nat)
    requires AllWellformed(rs) && Laid(e, c, rs, n).Some?
    requires AllWritable(rs, Laid(e, c, rs, n).value.0) && Laid(e, c, rs, n).value.1 <= left
    ensures PutRecords(e, c, rs, left, n, []).Ok?
  {
    hide Layers, Encode, PutRecord, Writable, AllWritable, Clear, FieldsFit;
    if rs != [] {
      var (key, kc, m) := Layers(e, c, rs[0].key, n).value;
      var (value, vc, l) := Layers(e, c, rs[0].value, m).value;
      LaidFirst(e, c, rs, n, key, kc, m, value, vc, l);
      EncodesIff(e, c, rs[0].key, left, n);
      EncodesIff(e, c, rs[0].value, left - kc, m);
      WritableFirst(rs, key, value, Laid(e, c, rs[1..], l).value.0);
      LaidIsWritten(e, c, rs[1..], left - kc - vc, l);
      FitsIff(key, value, rs[0]);
    }
  }

  lemma FitsIff(key: Bytes, value: Bytes, r: Record)
    ensures Writable(key, value, r) <==> FieldsFit(key, value, r)
    ensures FieldsFit(key, value, r) ==> |r.tags| <= 255
  {
  }

  predicate HeaderFits(h: Header, keys: seq<Bytes>)
    requires forall k :: k in keys ==> k in h.meta
  {
    && |keys| <= 65535 && |h.codec| <= 2147483647 && |h.name| <= 2147483647
    && forall i :: 0 <= i < |Pairs(keys, h.meta)| ==> |Pairs(keys, h.meta)[i]| <= 2147483647
  }

  // A save, under a limit if that is positive, completes if and only if the header's fields fit, every key and value
  // passes all layers of the codec, every record's fields fit, the compressing layers take in no more than
  // the budget in all, and header, records and trailer fit the limit; a body to be sealed must fit the limit
  // both before and after.
  lemma SaveCompletesIff(e: Env, codec: Codec, limit: int, h: Header, keys: seq<Bytes>, rs: seq<Record>)
    requires AllWellformed(rs) && Int64(h.saveTime) && Int64(h.count) && (forall k :: k in keys ==> k in h.meta)
    ensures var limit' := if limit > 0 then limit else 9223372036854775807;
      SaveTo(e, codec, limit, h, keys, rs).Ok? <==>
      && HeaderFits(h, keys) && Laid(e, Split(codec).0, rs, 0).Some?
      && var (kvs, cost, nonce) := Laid(e, Split(codec).0, rs, 0).value;
         && cost <= InflateLimit(limit') && AllWritable(rs, kvs)
         && match Split(codec).1
            case None => HeaderSize(h, keys) + TotalSize(rs, kvs) + 4 <= limit'
            case Some(k) =>
              var sealed := e.seal(k, nonce, Clear(rs, kvs), PutHeader(h, keys, []));
              TotalSize(rs, kvs) <= limit' && sealed.Some? && HeaderSize(h, keys) + 8 + |sealed.value| + 4 <= limit'
  {
    hide PutHeader, PutRecords, Laid, HeaderSize, HeaderWritable, HeaderFits, Split, PutNum;
    hide AllWritable, Clear, TotalSize;
    var limit' := if limit > 0 then limit else 9223372036854775807;
    var rec, budget := Split(codec).0, InflateLimit(limit');
    HeaderFitsIff(h, keys);
    assert budget >= 0;
    PutHeaderSize(h, keys, [], []);
    if Laid(e, rec, rs, 0).Some? && AllWritable(rs, Laid(e, rec, rs, 0).value.0) {
      if Laid(e, rec, rs, 0).value.1 <= budget { LaidIsWritten(e, rec, rs, budget, 0); }
      OnePerRecord(rs, Laid(e, rec, rs, 0).value.0);
      ClearSize(rs, Laid(e, rec, rs, 0).value.0);
    }
    if PutRecords(e, rec, rs, budget, 0, []).Ok? { WrittenIsLaid(e, rec, rs, budget, 0); }
    forall sealed: Bytes ensures |PutNum(8, |sealed|, sealed)| == 8 + |sealed| { PutNumSize(8, |sealed|, sealed, []); }
  }

  lemma HeaderFitsIff(h: Header, keys: seq<Bytes>)
    requires forall k :: k in keys ==> k in h.meta
    ensures HeaderWritable(h, keys) <==> HeaderFits(h, keys)
  {
  }

  lemma OnePerRecord(rs: seq<Record>, kvs: seq<(Bytes, Bytes)>)
    requires AllWritable(rs, kvs)
    ensures |kvs| == |rs|
  {
  }
}
