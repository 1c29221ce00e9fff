/**
 RESP requests: the density script's encoder and the fault peer's bounded parser.  The
 parser returns exactly the parts that were encoded, whatever bytes they contain, and
 accepts an encoded request exactly when it is within its bounds.
 */
module Resp {
  import opened Wrappers
  import opened Words
  import opened Bytes

  const CR: byte := 13
  const LF: byte := 10
  const CRLF: bytes := [13, 10]
  const STAR: byte := 42
  const DOLLAR: byte := 36
  const UNDERSCORE: byte := 95

  const MAX_PARTS: nat := 4
  const MAX_SIZE: nat := 8192
  const LINE_LIMIT: nat := 128

  // ----- The encoder -----

  predicate IsDigit(b: byte) {
    48 <= b <= 57
  }

  function Decimal(n: nat): (r: bytes)
    ensures r != []
    ensures forall i | 0 <= i < |r| :: IsDigit(r[i])
  {
    if n < 10 then [48 + n] else Decimal(n / 10) + [48 + n % 10]
  }

  function Header(tag: byte, n: nat): bytes {
    [tag] + Decimal(n) + CRLF
  }

  function EncodePart(part: bytes): bytes {
    Header(DOLLAR, |part|) + part + CRLF
  }

  function EncodeParts(parts: seq<bytes>): bytes {
    if parts == [] then [] else EncodePart(parts[0]) + EncodeParts(parts[1..])
  }

  function Encode(parts: seq<bytes>): bytes {
    Header(STAR, |parts|) + EncodeParts(parts)
  }

  /** The request that `redis_command` sends. */
  method EncodeRequest(parts: seq<bytes>) returns (request: bytes)
    ensures request == Encode(parts)
  {
    request := Header(STAR, |parts|);
    for i := 0 to |parts|
      invariant request + EncodeParts(parts[i..]) == Encode(parts)
    {
      var rest := EncodeParts(parts[i + 1..]);
      assert parts[i..][1..] == parts[i + 1..];
      assert request + (EncodePart(parts[i]) + rest) == (request + EncodePart(parts[i])) + rest;
      request := request + Header(DOLLAR, |parts[i]|);
      request := request + parts[i];
      request := request + CRLF;
    }
    assert parts[|parts|..] == [];
  }

  // ----- Python's view of the wire -----

  /** `file.readline(limit)`: through the first line feed, at most `limit` bytes. */
  function ReadLine(s: bytes, limit: nat): (r: bytes)
    ensures |r| <= |s| && |r| <= limit && r == s[..|r|]
    decreases |s|
  {
    if s == [] || limit == 0 then []
    else if s[0] == LF then [LF]
    else [s[0]] + ReadLine(s[1..], limit - 1)
  }

  predicate IsSpace(b: byte) {
    b == 32 || 9 <= b <= 13
  }

  function StripLeft(s: bytes): bytes {
    if s != [] && IsSpace(s[0]) then StripLeft(s[1..]) else s
  }

  function StripRight(s: bytes): bytes {
    if s != [] && IsSpace(s[|s| - 1]) then StripRight(s[..|s| - 1]) else s
  }

  /** Decimal digits, with single underscores allowed between them. */
  function Digits(s: bytes): Option<nat> {
    if s == [] || !IsDigit(s[|s| - 1]) then None
    else if |s| == 1 then Some(s[0] - 48)
    else
      var n := |s| - 1;
      var front := if s[n - 1] == UNDERSCORE then s[..n - 1] else s[..n];
      match Digits(front)
      case None => None
      case Some(v) => Some(10 * v + (s[n] - 48))
  }

  /** `int(b)` on a byte string. */
  function PythonInt(s: bytes): Option<int> {
    var t := StripRight(StripLeft(s));
    if t == [] then None
    else
      match Digits(if t[0] == 43 || t[0] == 45 then t[1..] else t)
      case None => None
      case Some(v) => Some(if t[0] == 45 then 0 - v else v)
  }

  // ----- The parser -----

  datatype ParseError = BadHeader | BadNumber | BadCount | BadSize | Incomplete

  datatype Parsed<+T> = Parsed(value: T, rest: bytes)

  /** A header line with the given tag, and the number on it. */
  function ParseHeader(s: bytes, tag: byte): Result<Parsed<int>, ParseError> {
    var line := ReadLine(s, LINE_LIMIT);
    match LineNumber(line, tag)
    case Failure(e) => Failure(e)
    case Success(v) => Success(Parsed(v, s[|line|..]))
  }

  /** The number on a complete line that starts with the tag. */
  function LineNumber(line: bytes, tag: byte): Result<int, ParseError> {
    var n := |line|;
    if !(n >= 3 && line[0] == tag && line[n - 2..] == CRLF) then Failure(BadHeader)
    else
      match PythonInt(line[1..n - 2])
      case None => Failure(BadNumber)
      case Some(v) => Success(v)
  }

  /** One bulk string: header, bounded size, data and terminator. */
  function ParseBulk(s: bytes): Result<Parsed<bytes>, ParseError> {
    match ParseHeader(s, DOLLAR)
    case Failure(e) => Failure(e)
    case Success(Parsed(size, rest)) =>
      if !(0 <= size <= MAX_SIZE) then Failure(BadSize)
      else if |rest| < size + 2 || rest[size..size + 2] != CRLF then Failure(Incomplete)
      else Success(Parsed(rest[..size], rest[size + 2..]))
  }

  function ParseBulks(s: bytes, count: nat): Result<Parsed<seq<bytes>>, ParseError>
    decreases count
  {
    if count == 0 then Success(Parsed([], s))
    else
      match ParseBulk(s)
      case Failure(e) => Failure(e)
      case Success(Parsed(part, rest)) =>
        match ParseBulks(rest, count - 1)
        case Failure(e) => Failure(e)
        case Success(Parsed(parts, rest')) => Success(Parsed([part] + parts, rest'))
  }

  function ParseRequest(s: bytes): Result<Parsed<seq<bytes>>, ParseError> {
    match ParseHeader(s, STAR)
    case Failure(e) => Failure(e)
    case Success(Parsed(count, rest)) =>
      if !(1 <= count <= MAX_PARTS) then Failure(BadCount) else ParseBulks(rest, count)
  }

  /** `read_fault_request`: the parts are appended to a list as the stream is consumed. */
  method ReadFaultRequest(stream: bytes) returns (r: Result<Parsed<seq<bytes>>, ParseError>)
    ensures r == ParseRequest(stream)
  {
    var header := ParseHeader(stream, STAR);
    if header.Failure? {
      return Failure(header.error);
    }
    var count := header.value.value;
    if !(1 <= count <= MAX_PARTS) {
      return Failure(BadCount);
    }
    var parts: seq<bytes> := [];
    var rest := header.value.rest;
    PrependNothing(ParseBulks(rest, count));
    for k := 0 to count
      invariant ParseRequest(stream) == Prepend(parts, ParseBulks(rest, count - k))
    {
      var bulk := ParseBulk(rest);
      BulksStep(rest, count - k);
      if bulk.Failure? {
        return Failure(bulk.error);
      }
      PrependStep(parts, bulk.value.value, ParseBulks(bulk.value.rest, count - k - 1));
      parts := parts + [bulk.value.value];
      rest := bulk.value.rest;
    }
    assert parts + [] == parts;
    return Success(Parsed(parts, rest));
  }

  lemma PrependNothing(r: Result<Parsed<seq<bytes>>, ParseError>)
    ensures Prepend([], r) == r
  {
    if r.Success? {
      assert [] + r.value.value == r.value.value;
    }
  }

  lemma BulksStep(s: bytes, count: nat)
    requires count > 0
    ensures var bulk := ParseBulk(s);
            ParseBulks(s, count) == if bulk.Failure? then Failure(bulk.error)
                                    else Prepend([bulk.value.value], ParseBulks(bulk.value.rest, count - 1))
  {
  }

  function Prepend(parts: seq<bytes>, r: Result<Parsed<seq<bytes>>, ParseError>): Result<Parsed<seq<bytes>>, ParseError> {
    match r
    case Failure(e) => Failure(e)
    case Success(Parsed(more, rest)) => Success(Parsed(parts + more, rest))
  }

  lemma PrependStep(parts: seq<bytes>, part: bytes, r: Result<Parsed<seq<bytes>>, ParseError>)
    ensures Prepend(parts, Prepend([part], r)) == Prepend(parts + [part], r)
  {
    if r.Success? {
      assert parts + ([part] + r.value.value) == parts + [part] + r.value.value;
    }
  }

  // ----- Round trip -----

  lemma {:induction false} ReadLineWhole(body: bytes, rest: bytes, limit: nat)
    requires LF !in body
    ensures |body| < limit ==> ReadLine(body + [LF] + rest, limit) == body + [LF]
    ensures |body| >= limit ==> LF !in ReadLine(body + [LF] + rest, limit)
    decreases |body|
  {
    var s := body + [LF] + rest;
    if body != [] && limit > 0 {
      assert s[1..] == body[1..] + [LF] + rest;
      ReadLineWhole(body[1..], rest, limit - 1);
    }
  }

  lemma {:induction false} DigitsOfDecimal(n: nat)
    ensures Digits(Decimal(n)) == Some(n)
    decreases n
  {
    if n >= 10 {
      DigitsOfDecimal(n / 10);
      var s := Decimal(n);
      assert s[..|s| - 1] == Decimal(n / 10);
    }
  }

  lemma PythonIntOfDecimal(n: nat)
    ensures PythonInt(Decimal(n)) == Some(n)
  {
    DigitsOfDecimal(n);
    var s := Decimal(n);
    assert IsDigit(s[0]) && IsDigit(s[|s| - 1]);
    assert StripLeft(s) == s && StripRight(s) == s;
  }

  lemma LineNumberOfHeader(tag: byte, n: nat)
    ensures LineNumber([tag] + Decimal(n) + [CR] + [LF], tag) == Success(n)
  {
    var line := [tag] + Decimal(n) + [CR] + [LF];
    assert line[1..|line| - 2] == Decimal(n);
    assert line[|line| - 2..] == CRLF;
    PythonIntOfDecimal(n);
  }

  lemma LineNumberNeedsLineFeed(line: bytes, tag: byte)
    requires LF !in line
    ensures LineNumber(line, tag) == Failure(BadHeader)
  {
    var n := |line|;
    if n >= 3 {
      assert line[n - 1] == line[n - 2..][1];
    }
  }

  /** A short enough header reads back its number; a longer one is refused. */
  lemma HeaderReadsBack(tag: byte, n: nat, rest: bytes)
    requires tag != LF
    ensures ParseHeader(Header(tag, n) + rest, tag)
         == if |Header(tag, n)| <= LINE_LIMIT then Success(Parsed(n, rest)) else Failure(BadHeader)
  {
    var body := [tag] + Decimal(n) + [CR];
    assert Header(tag, n) + rest == body + [LF] + rest;
    ReadLineWhole(body, rest, LINE_LIMIT);
    if |body| < LINE_LIMIT {
      LineNumberOfHeader(tag, n);
      assert (body + [LF] + rest)[|body + [LF]|..] == rest;
    } else {
      LineNumberNeedsLineFeed(ReadLine(body + [LF] + rest, LINE_LIMIT), tag);
    }
  }

  lemma {:induction false} DecimalLength(n: nat, k: nat)
    requires k > 0 && n < Pow10(k)
    ensures |Decimal(n)| <= k
    decreases k
  {
    if n >= 10 {
      DecimalLength(n / 10, k - 1);
    }
  }

  function Pow10(k: nat): nat {
    if k == 0 then 1 else 10 * Pow10(k - 1)
  }

  lemma SmallHeader(tag: byte, n: nat)
    requires n <= MAX_SIZE
    ensures |Header(tag, n)| <= LINE_LIMIT
  {
    assert Pow10(2) == 100 && Pow10(4) == 100 * Pow10(2);
    DecimalLength(n, 4);
  }

  /** An encoded part reads back, and is refused exactly when it is too long. */
  lemma PartReadsBack(part: bytes, rest: bytes)
    ensures |part| <= MAX_SIZE ==> ParseBulk(EncodePart(part) + rest) == Success(Parsed(part, rest))
    ensures |part| > MAX_SIZE ==> ParseBulk(EncodePart(part) + rest).Failure?
  {
    var after := part + CRLF + rest;
    assert EncodePart(part) + rest == Header(DOLLAR, |part|) + after;
    HeaderReadsBack(DOLLAR, |part|, after);
    if |part| <= MAX_SIZE {
      SmallHeader(DOLLAR, |part|);
      assert after[|part|..|part| + 2] == CRLF;
      assert after[..|part|] == part;
      assert after[|part| + 2..] == rest;
    }
  }

  lemma {:induction false} PartsReadBack(parts: seq<bytes>, rest: bytes)
    ensures (forall p | p in parts :: |p| <= MAX_SIZE) ==>
              ParseBulks(EncodeParts(parts) + rest, |parts|) == Success(Parsed(parts, rest))
    ensures (exists p | p in parts :: |p| > MAX_SIZE) ==> ParseBulks(EncodeParts(parts) + rest, |parts|).Failure?
    decreases |parts|
  {
    if parts == [] {
      assert EncodeParts(parts) + rest == rest;
    } else {
      var after := EncodeParts(parts[1..]) + rest;
      assert EncodeParts(parts) + rest == EncodePart(parts[0]) + after;
      PartReadsBack(parts[0], after);
      PartsReadBack(parts[1..], rest);
      assert parts == [parts[0]] + parts[1..];
    }
  }

  /** Requests the fault peer admits. */
  predicate Bounded(parts: seq<bytes>) {
    1 <= |parts| <= MAX_PARTS && forall p | p in parts :: |p| <= MAX_SIZE
  }

  /**
   Every bounded request, whatever its bytes and whatever follows it on the stream, parses
   to its own parts and consumes exactly its encoding; every other request is refused.
   */
  lemma RequestRoundTrip(parts: seq<bytes>, rest: bytes)
    ensures Bounded(parts) ==> ParseRequest(Encode(parts) + rest) == Success(Parsed(parts, rest))
    ensures !Bounded(parts) ==> ParseRequest(Encode(parts) + rest).Failure?
  {
    var after := EncodeParts(parts) + rest;
    assert Encode(parts) + rest == Header(STAR, |parts|) + after;
    HeaderReadsBack(STAR, |parts|, after);
    if 1 <= |parts| <= MAX_PARTS {
      SmallHeader(STAR, |parts|);
      PartsReadBack(parts, rest);
    }
  }
}
