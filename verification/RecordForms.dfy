/** What the record encodings of src/codec.cpp share: identities, counted lists, optional fields. */
module RecordForms {
  import opened Errors
  import opened CanonicalBytes

  // The last value of the SourceAuthority and EvidenceOrigin enumerations.
  const LAST_AUTHORITY: Byte := 4
  const LAST_ORIGIN: Byte := 3
  const UNKNOWN_ORIGIN: Byte := 0

  // The digest behind every identity, and the identity of the runtime's own clock.
  datatype Scheme = Scheme(digest: Bytes -> Digest, localClock: Id)

  function Ascii(s: string): Bytes {
    seq(|s|, i requires 0 <= i < |s| => (s[i] as int) % 256)
  }

  function IdOf(d: Digest): Id { d[..ID_BYTES] }

  // ---------------------------------------------------------------------------
  // Optional fields (include/jitter/codec.hpp)
  // ---------------------------------------------------------------------------

  function EncOptI64(v: Option<I64>): Bytes {
    match v
    case None => EncBool(false)
    case Some(x) => EncBool(true) + EncI64(x)
  }

  function DecOptI64(b: Bytes): Parse<Option<I64>> {
    var (present, r) :- DecBool(b);
    if !present then Parsed(None, r)
    else
      var (x, r) :- DecI64(r);
      Parsed(Some(x), r)
  }

  lemma OptI64RoundTrip(v: Option<I64>, r: Bytes)
    ensures DecOptI64(EncOptI64(v) + r) == Parsed(v, r)
  {
    hide DecBool, DecI64, EncBool, EncI64;
    match v
    case None =>
      BoolRoundTrip(false, r);
    case Some(x) =>
      Assoc(EncBool(true), EncI64(x), r);
      BoolRoundTrip(true, EncI64(x) + r);
      I64RoundTrip(x, r);
  }

  method WriteOptI64(w: ByteWriter, v: Option<I64>)
    modifies w
    ensures w.data == old(w.data) + EncOptI64(v)
  {
    hide EncBool, EncI64;
    if v.Some? {
      w.Boolean(true);
      w.I64(v.value);
      Assoc(old(w.data), EncBool(true), EncI64(v.value));
    } else {
      w.Boolean(false);
    }
  }

  method ReadOptI64(reader: ByteReader) returns (res: Result<Option<I64>>)
    requires reader.Valid()
    modifies reader
    ensures reader.Reads(res, DecOptI64(old(reader.Rest())))
  {
    hide DecBool, DecI64;
    var present :- reader.Boolean();
    if !present {
      return Ok(None);
    }
    var x :- reader.I64();
    res := Ok(Some(x));
  }

  // write_optional_id: the nil identity stands for absence.
  function EncOptId(v: Id): Bytes {
    if v == NIL_ID then EncBool(false) else EncBool(true) + v
  }

  function DecOptId(b: Bytes): Parse<Option<Id>> {
    var (present, r) :- DecBool(b);
    if !present then Parsed(None, r)
    else
      var (x, r) :- DecId(r);
      Parsed(Some(x), r)
  }

  lemma OptIdRoundTrip(v: Id, r: Bytes)
    ensures DecOptId(EncOptId(v) + r) == Parsed(if v == NIL_ID then None else Some(v), r)
  {
    hide DecBool, DecId, EncBool;
    if v == NIL_ID {
      BoolRoundTrip(false, r);
    } else {
      Assoc(EncBool(true), v, r);
      BoolRoundTrip(true, v + r);
      IdRoundTrip(v, r);
    }
  }

  method WriteOptId(w: ByteWriter, v: Id)
    modifies w
    ensures w.data == old(w.data) + EncOptId(v)
  {
    hide EncBool;
    if v == NIL_ID {
      w.Boolean(false);
      return;
    }
    w.Boolean(true);
    w.Raw(v);
    Assoc(old(w.data), EncBool(true), v);
  }

  method ReadOptId(reader: ByteReader) returns (res: Result<Option<Id>>)
    requires reader.Valid()
    modifies reader
    ensures reader.Reads(res, DecOptId(old(reader.Rest())))
  {
    hide DecBool, DecId;
    var present :- reader.Boolean();
    if !present {
      return Ok(None);
    }
    var x :- reader.ReadId();
    res := Ok(Some(x));
  }

  // ---------------------------------------------------------------------------
  // Concatenations of several fields
  // ---------------------------------------------------------------------------

  lemma Nest3(a: Bytes, b: Bytes, c: Bytes, r: Bytes)
    ensures (a + (b + c)) + r == a + (b + (c + r))
  {
    Assoc(a, b + c, r);
    Assoc(b, c, r);
  }

  lemma Nest4(a: Bytes, b: Bytes, c: Bytes, d: Bytes, r: Bytes)
    ensures (a + (b + (c + d))) + r == a + (b + (c + (d + r)))
  {
    Assoc(a, b + (c + d), r);
    Nest3(b, c, d, r);
  }

  lemma Nest5(a: Bytes, b: Bytes, c: Bytes, d: Bytes, e: Bytes, r: Bytes)
    ensures (a + (b + (c + (d + e)))) + r == a + (b + (c + (d + (e + r))))
  {
    Assoc(a, b + (c + (d + e)), r);
    Nest4(b, c, d, e, r);
  }

  lemma Nest6(a: Bytes, b: Bytes, c: Bytes, d: Bytes, e: Bytes, f: Bytes, r: Bytes)
    ensures (a + (b + (c + (d + (e + f))))) + r == a + (b + (c + (d + (e + (f + r)))))
  {
    Assoc(a, b + (c + (d + (e + f))), r);
    Nest5(b, c, d, e, f, r);
  }

  lemma Nest7(a: Bytes, b: Bytes, c: Bytes, d: Bytes, e: Bytes, f: Bytes, g: Bytes, r: Bytes)
    ensures (a + (b + (c + (d + (e + (f + g)))))) + r == a + (b + (c + (d + (e + (f + (g + r))))))
  {
    Assoc(a, b + (c + (d + (e + (f + g)))), r);
    Nest6(b, c, d, e, f, g, r);
  }

  lemma Chain3(o: Bytes, a: Bytes, b: Bytes, c: Bytes)
    ensures ((o + a) + b) + c == o + (a + (b + c))
  {
    Assoc(o + a, b, c);
    Assoc(o, a, b + c);
  }

  lemma Chain4(o: Bytes, a: Bytes, b: Bytes, c: Bytes, d: Bytes)
    ensures (((o + a) + b) + c) + d == o + (a + (b + (c + d)))
  {
    Chain3(o + a, b, c, d);
    Assoc(o, a, b + (c + d));
  }

  lemma Chain5(o: Bytes, a: Bytes, b: Bytes, c: Bytes, d: Bytes, e: Bytes)
    ensures ((((o + a) + b) + c) + d) + e == o + (a + (b + (c + (d + e))))
  {
    Chain4(o + a, b, c, d, e);
    Assoc(o, a, b + (c + (d + e)));
  }

  lemma Chain6(o: Bytes, a: Bytes, b: Bytes, c: Bytes, d: Bytes, e: Bytes, f: Bytes)
    ensures (((((o + a) + b) + c) + d) + e) + f == o + (a + (b + (c + (d + (e + f)))))
  {
    Chain5(o + a, b, c, d, e, f);
    Assoc(o, a, b + (c + (d + (e + f))));
  }

  lemma Chain7(o: Bytes, a: Bytes, b: Bytes, c: Bytes, d: Bytes, e: Bytes, f: Bytes, g: Bytes)
    ensures ((((((o + a) + b) + c) + d) + e) + f) + g == o + (a + (b + (c + (d + (e + (f + g))))))
  {
    Chain6(o + a, b, c, d, e, f, g);
    Assoc(o, a, b + (c + (d + (e + (f + g)))));
  }

  // ---------------------------------------------------------------------------
  // Lists of records behind a 32-bit count
  // ---------------------------------------------------------------------------

  function EncList<T>(enc: T -> Bytes, s: seq<T>): Bytes {
    if s == [] then [] else enc(s[0]) + EncList(enc, s[1..])
  }

  /** Read n records, adding each to what was read before. */
  function DecList<T>(dec: Bytes -> Parse<T>, acc: seq<T>, n: nat, b: Bytes): Parse<seq<T>>
    decreases n
  {
    if n == 0 then Parsed(acc, b)
    else
      var (v, r) :- dec(b);
      DecList(dec, acc + [v], n - 1, r)
  }

  ghost predicate ReadsBack<T(!new)>(enc: T -> Bytes, dec: Bytes -> Parse<T>, v: T) {
    forall r: Bytes :: dec(enc(v) + r) == Parsed(v, r)
  }

  lemma {:induction false} ListRoundTrip<T(!new)>(
    enc: T -> Bytes, dec: Bytes -> Parse<T>, acc: seq<T>, s: seq<T>, r: Bytes)
    requires forall i :: 0 <= i < |s| ==> ReadsBack(enc, dec, s[i])
    ensures DecList(dec, acc, |s|, EncList(enc, s) + r) == Parsed(acc + s, r)
    decreases |s|
  {
    if s == [] {
      assert EncList(enc, s) + r == r;
      assert acc + s == acc;
    } else {
      var rest := EncList(enc, s[1..]) + r;
      Assoc(enc(s[0]), EncList(enc, s[1..]), r);
      assert EncList(enc, s) + r == enc(s[0]) + rest;
      assert ReadsBack(enc, dec, s[0]);
      forall i | 0 <= i < |s[1..]|
        ensures ReadsBack(enc, dec, s[1..][i])
      {
        assert s[1..][i] == s[i + 1];
      }
      hide ReadsBack;
      ListRoundTrip(enc, dec, acc + [s[0]], s[1..], r);
      assert acc + [s[0]] + s[1..] == acc + s;
    }
  }
}
