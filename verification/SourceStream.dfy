/** The byte stream fed to the source digest: every field is its decimal length, a colon and its bytes. A decoder undoes it. */
module SourceStream {

  import opened Wrappers

  type Bytes = seq<char>

  /** One retained entry, as the digest sees it. */
  datatype Record = Record(kind: Bytes, path: Bytes, executable: bool, payload: Bytes)

  // ---------- decimal lengths ----------

  function Digit(n: nat): char
    requires n < 10
  {
    '0' + n as char
  }

  /** `str(n)` for a length. */
  function Decimal(n: nat): (r: Bytes)
    ensures |r| > 0
  {
    if n < 10 then [Digit(n)] else Decimal(n / 10) + [Digit(n % 10)]
  }

  predicate IsDigit(c: char) { '0' <= c <= '9' }

  function ValueOf(s: Bytes): nat {
    if s == [] then 0
    else
      var c := s[|s| - 1];
      10 * ValueOf(s[..|s| - 1]) + if IsDigit(c) then (c - '0') as nat else 0
  }

  lemma {:induction false} DecimalReads(n: nat)
    ensures forall i :: 0 <= i < |Decimal(n)| ==> IsDigit(Decimal(n)[i])
    ensures ValueOf(Decimal(n)) == n
  {
    if n < 10 {
      assert [Digit(n)][..0] == [];
    } else {
      DecimalReads(n / 10);
      assert Decimal(n)[..|Decimal(n)| - 1] == Decimal(n / 10);
    }
  }

  // ---------- one field ----------

  function Field(f: Bytes): Bytes { Decimal(|f|) + ":" + f }

  /** The position of the first colon. */
  function Colon(s: Bytes): (n: nat)
    ensures n <= |s|
  {
    if s == [] || s[0] == ':' then 0 else 1 + Colon(s[1..])
  }

  /** Reads one field off the front: its bytes and what follows. */
  function ReadField(s: Bytes): Option<(Bytes, Bytes)> {
    var n := Colon(s);
    if n == |s| then None
    else
      var length := ValueOf(s[..n]);
      if n + 1 + length <= |s| then Some((s[n + 1..n + 1 + length], s[n + 1 + length..])) else None
  }

  lemma {:induction false} ColonAfterDigits(d: Bytes, rest: Bytes)
    requires forall i :: 0 <= i < |d| ==> IsDigit(d[i])
    ensures Colon(d + ":" + rest) == |d|
  {
    if d != [] {
      assert (d + ":" + rest)[1..] == d[1..] + ":" + rest;
      ColonAfterDigits(d[1..], rest);
    }
  }

  lemma FieldReads(f: Bytes, rest: Bytes)
    ensures ReadField(Field(f) + rest) == Some((f, rest))
  {
    var d := Decimal(|f|);
    DecimalReads(|f|);
    ColonAfterDigits(d, f + rest);
    var s := Field(f) + rest;
    assert s == d + ":" + (f + rest);
    hide Decimal, Colon, ValueOf;
    assert s[..|d|] == d;
    assert s[|d| + 1..|d| + 1 + |f|] == f && s[|d| + 1 + |f|..] == rest;
  }

  // ---------- one record ----------

  function Flag(executable: bool): Bytes { if executable then "1" else "0" }

  /** Kind, path, executable bit, payload length and payload. */
  function Encode(r: Record): Bytes {
    Field(r.kind) + Field(r.path) + Field(Flag(r.executable)) + Field(Decimal(|r.payload|)) + Field(r.payload)
  }

  function ReadRecord(s: Bytes): Option<(Record, Bytes)> {
    var kind := ReadField(s);
    if kind == None then None else
    var path := ReadField(kind.value.1);
    if path == None then None else
    var flag := ReadField(path.value.1);
    if flag == None then None else
    var length := ReadField(flag.value.1);
    if length == None then None else
    var payload := ReadField(length.value.1);
    if payload == None then None
    else Some((Record(kind.value.0, path.value.0, flag.value.0 == "1", payload.value.0), payload.value.1))
  }

  lemma RecordReads(r: Record, rest: Bytes)
    ensures ReadRecord(Encode(r) + rest) == Some((r, rest))
  {
    var a, b, c := Field(r.kind), Field(r.path), Field(Flag(r.executable));
    var d, e := Field(Decimal(|r.payload|)), Field(r.payload);
    assert Encode(r) + rest == a + (b + (c + (d + (e + rest))));
    FieldReads(r.kind, b + (c + (d + (e + rest))));
    FieldReads(r.path, c + (d + (e + rest)));
    FieldReads(Flag(r.executable), d + (e + rest));
    FieldReads(Decimal(|r.payload|), e + rest);
    FieldReads(r.payload, rest);
    hide Field, Decimal, ReadField;
  }

  lemma EncodeNotEmpty(r: Record)
    ensures |Encode(r)| > 0
  {
  }

  // ---------- the whole stream ----------

  function Stream(rs: seq<Record>): Bytes {
    if rs == [] then [] else Encode(rs[0]) + Stream(rs[1..])
  }

  /** Reads records until the stream is used up. */
  function Decode(s: Bytes): Option<seq<Record>>
    decreases |s|
  {
    if s == [] then Some([])
    else
      match ReadRecord(s)
      case None => None
      case Some((r, rest)) =>
        if |rest| >= |s| then None
        else
          match Decode(rest)
          case None => None
          case Some(rs) => Some([r] + rs)
  }

  /** The stream is uniquely decodable. */
  lemma {:induction false} StreamDecodes(rs: seq<Record>)
    ensures Decode(Stream(rs)) == Some(rs)
  {
    if rs != [] {
      StreamStarts(rs);
      hide *;
      StreamDecodes(rs[1..]);
      RecordReads(rs[0], Stream(rs[1..]));
      EncodeNotEmpty(rs[0]);
      assert |Stream(rs[1..])| < |Stream(rs)|;
      DecodeStep(Stream(rs), rs[0], Stream(rs[1..]), rs[1..]);
      HeadAndTail(rs);
    } else {
      assert Stream(rs) == [];
    }
  }

  lemma HeadAndTail(rs: seq<Record>)
    requires rs != []
    ensures [rs[0]] + rs[1..] == rs
  {
  }

  lemma StreamStarts(rs: seq<Record>)
    requires rs != []
    ensures Stream(rs) == Encode(rs[0]) + Stream(rs[1..])
  {
  }

  lemma DecodeStep(s: Bytes, r: Record, rest: Bytes, rs: seq<Record>)
    requires ReadRecord(s) == Some((r, rest)) && |rest| < |s| && Decode(rest) == Some(rs)
    ensures Decode(s) == Some([r] + rs)
  {
    hide ReadRecord;
  }

  /** So different lists of records never feed the digest the same bytes. */
  lemma StreamIsInjective(xs: seq<Record>, ys: seq<Record>)
    requires Stream(xs) == Stream(ys)
    ensures xs == ys
  {
    StreamDecodes(xs);
    StreamDecodes(ys);
    hide Stream, Decode;
  }

  lemma {:induction false} StreamAppends(rs: seq<Record>, r: Record)
    ensures Stream(rs + [r]) == Stream(rs) + Encode(r)
  {
    if rs == [] {
      OneRecord(r);
    } else {
      StreamStarts(rs);
      StreamStarts(rs + [r]);
      AppendShifts(rs, r);
      StreamAppends(rs[1..], r);
      hide *;
      Regroup(Encode(rs[0]), Stream(rs[1..]), Encode(r));
    }
  }

  lemma OneRecord(r: Record)
    ensures Stream([] + [r]) == Stream([]) + Encode(r)
  {
    var e := Encode(r);
    hide Encode;
    assert [] + [r] == [r] && [r][1..] == [];
    assert e + [] == e && [] + e == e;
  }

  lemma AppendShifts(rs: seq<Record>, r: Record)
    requires rs != []
    ensures (rs + [r])[0] == rs[0] && (rs + [r])[1..] == rs[1..] + [r]
  {
  }

  lemma Regroup(a: Bytes, b: Bytes, c: Bytes)
    ensures a + (b + c) == (a + b) + c
  {
  }
}
