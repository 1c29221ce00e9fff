/**
 Length-prefixed framing of the bytes that are hashed.  Frames are uniquely decodable,
 so two digests agree only if the framed content agrees or the hash collides.  The hash
 is any function to 64 hexadecimal characters.
 */
module Framing {
  import opened Words
  import opened Wrappers
  import opened Bytes
  import opened Store

  /** `struct.pack('>Q', ...)` can hold the length. */
  predicate Fits(b: bytes) {
    |b| < WORD
  }

  // ----- Streams of self-delimiting encodings -----

  /** The encodings of a sequence, one after another. */
  function Stream<T>(encode: T -> bytes, xs: seq<T>): bytes {
    if xs == [] then [] else encode(xs[0]) + Stream(encode, xs[1..])
  }

  /** Encodings of admissible items are never empty and never prefixes of one another. */
  ghost predicate SelfDelimiting<T(!new)>(encode: T -> bytes, ok: T -> bool) {
    && (forall x | ok(x) :: encode(x) != [])
    && (forall x, y, a: bytes, b: bytes | ok(x) && ok(y) && encode(x) + a == encode(y) + b :: x == y && a == b)
  }

  ghost predicate All<T>(ok: T -> bool, xs: seq<T>) {
    forall i | 0 <= i < |xs| :: ok(xs[i])
  }

  lemma {:induction false} StreamConcat<T>(encode: T -> bytes, a: seq<T>, b: seq<T>)
    ensures Stream(encode, a + b) == Stream(encode, a) + Stream(encode, b)
    decreases |a|
  {
    if a == [] {
      assert a + b == b;
    } else {
      StreamConcat(encode, a[1..], b);
      assert (a + b)[1..] == a[1..] + b;
    }
  }

  lemma StreamAppend<T>(encode: T -> bytes, xs: seq<T>, x: T)
    ensures Stream(encode, xs + [x]) == Stream(encode, xs) + encode(x)
  {
    StreamConcat(encode, xs, [x]);
    assert Stream(encode, [x]) == encode(x) + Stream(encode, [x][1..]);
  }

  /** A known number of items is determined by a stream that starts with them. */
  lemma {:induction false} StreamPrefix<T(!new)>(encode: T -> bytes, ok: T -> bool,
                                                 xs: seq<T>, ys: seq<T>, a: bytes, b: bytes)
    requires SelfDelimiting(encode, ok) && All(ok, xs) && All(ok, ys) && |xs| == |ys|
    requires Stream(encode, xs) + a == Stream(encode, ys) + b
    ensures xs == ys && a == b
    decreases |xs|
  {
    if xs == [] {
      assert Stream(encode, xs) + a == a;
      assert Stream(encode, ys) + b == b;
    } else {
      var p, q := Stream(encode, xs[1..]) + a, Stream(encode, ys[1..]) + b;
      assert Stream(encode, xs) + a == encode(xs[0]) + p;
      assert Stream(encode, ys) + b == encode(ys[0]) + q;
      StreamPrefix(encode, ok, xs[1..], ys[1..], a, b);
      assert xs == [xs[0]] + xs[1..];
      assert ys == [ys[0]] + ys[1..];
    }
  }

  lemma StreamEmpty<T(!new)>(encode: T -> bytes, ok: T -> bool, xs: seq<T>)
    requires SelfDelimiting(encode, ok) && All(ok, xs)
    ensures Stream(encode, xs) == [] <==> xs == []
  {
    if xs != [] {
      assert encode(xs[0]) != [];
    }
  }

  /** A stream of self-delimiting encodings decodes in one way only. */
  lemma {:induction false} StreamInjective<T(!new)>(encode: T -> bytes, ok: T -> bool, xs: seq<T>, ys: seq<T>)
    requires SelfDelimiting(encode, ok) && All(ok, xs) && All(ok, ys)
    requires Stream(encode, xs) == Stream(encode, ys)
    ensures xs == ys
    decreases |xs|
  {
    StreamEmpty(encode, ok, xs);
    StreamEmpty(encode, ok, ys);
    if xs != [] {
      var p, q := Stream(encode, xs[1..]), Stream(encode, ys[1..]);
      assert encode(xs[0]) + p == encode(ys[0]) + q;
      StreamInjective(encode, ok, xs[1..], ys[1..]);
      assert xs == [xs[0]] + xs[1..];
      assert ys == [ys[0]] + ys[1..];
    }
  }

  // ----- Frames -----

  /** What `frame` feeds to the hash. */
  function Frame(b: bytes): bytes {
    BigEndian(|b|, 8) + b
  }

  function FrameAll(parts: seq<bytes>): bytes {
    Stream(Frame, parts)
  }

  /** What `command_frame` feeds to the hash. */
  function CommandFrame(parts: seq<bytes>): bytes {
    BigEndian(|parts|, 8) + FrameAll(parts)
  }

  /** Eight bytes of length, most significant first, then the bytes themselves. */
  lemma FrameLayout(b: bytes)
    requires Fits(b)
    ensures |Frame(b)| == 8 + |b|
    ensures FromBigEndian(Frame(b)[..8]) == |b| && Frame(b)[8..] == b
  {
    PowWord();
    BigEndianInverse(|b|, 8);
    assert Frame(b)[..8] == BigEndian(|b|, 8);
  }

  /** Eight bytes of count, most significant first, then the frames of the parts in order. */
  lemma CommandFrameLayout(parts: seq<bytes>)
    requires |parts| < WORD
    ensures |CommandFrame(parts)| >= 8
    ensures FromBigEndian(CommandFrame(parts)[..8]) == |parts| && CommandFrame(parts)[8..] == FrameAll(parts)
  {
    PowWord();
    BigEndianInverse(|parts|, 8);
    assert CommandFrame(parts)[..8] == BigEndian(|parts|, 8);
  }

  lemma Associate(a: bytes, b: bytes, c: bytes)
    ensures a + b + c == a + (b + c)
  {
  }

  lemma HeaderPrefix(m: Word, n: Word, s: bytes, t: bytes)
    requires BigEndian(m, 8) + s == BigEndian(n, 8) + t
    ensures m == n && s == t
  {
    var p, q := BigEndian(m, 8) + s, BigEndian(n, 8) + t;
    assert p[..8] == BigEndian(m, 8) && p[8..] == s;
    assert q[..8] == BigEndian(n, 8) && q[8..] == t;
    WordBytesInjective(m, n);
  }

  lemma FramePrefix(x: bytes, y: bytes, a: bytes, b: bytes)
    requires Fits(x) && Fits(y) && Frame(x) + a == Frame(y) + b
    ensures x == y && a == b
  {
    Associate(BigEndian(|x|, 8), x, a);
    Associate(BigEndian(|y|, 8), y, b);
    HeaderPrefix(|x|, |y|, x + a, y + b);
    assert x == (x + a)[..|x|] && a == (x + a)[|x|..];
    assert y == (y + b)[..|y|] && b == (y + b)[|y|..];
  }

  /** Frames delimit themselves. */
  lemma FramesDelimit()
    ensures SelfDelimiting(Frame, Fits)
  {
    forall x, y, a, b | Fits(x) && Fits(y) && Frame(x) + a == Frame(y) + b
      ensures x == y && a == b
    {
      FramePrefix(x, y, a, b);
    }
  }

  // ----- Commands on the wire -----

  /** The parts of a command, name first. */
  function Parts(c: Command): seq<bytes> {
    match c
    case Set(key, data) => [Ascii("SET"), key, data]
    case SetXX(key, data) => [Ascii("SET"), key, data, Ascii("XX")]
    case Del(key) => [Ascii("DEL"), key]
    case PExpire(key, ms) => [Ascii("PEXPIRE"), key, ms]
    case Persist(key) => [Ascii("PERSIST"), key]
    case HSet(key, field, data) => [Ascii("HSET"), key, field, data]
    case RPush(key, data) => [Ascii("RPUSH"), key, data]
    case Get(key) => [Ascii("GET"), key]
    case TypeOf(key) => [Ascii("TYPE"), key]
    case PTtl(key) => [Ascii("PTTL"), key]
    case HGetAll(key) => [Ascii("HGETALL"), key]
    case LRange(key, first, last) => [Ascii("LRANGE"), key, first, last]
  }

  /** The name a command is counted under. */
  function Name(c: Command): bytes {
    Parts(c)[0]
  }

  /** The command that a server reads off the parts of a request. */
  function CommandOf(parts: seq<bytes>): Option<Command> {
    var n := |parts|;
    if n < 2 then None
    else
      var name, key := parts[0], parts[1];
      if n == 2 then
        if name == Ascii("DEL") then Some(Del(key))
        else if name == Ascii("PERSIST") then Some(Persist(key))
        else if name == Ascii("GET") then Some(Get(key))
        else if name == Ascii("TYPE") then Some(TypeOf(key))
        else if name == Ascii("PTTL") then Some(PTtl(key))
        else if name == Ascii("HGETALL") then Some(HGetAll(key))
        else None
      else if n == 3 then
        if name == Ascii("SET") then Some(Set(key, parts[2]))
        else if name == Ascii("PEXPIRE") then Some(PExpire(key, parts[2]))
        else if name == Ascii("RPUSH") then Some(RPush(key, parts[2]))
        else None
      else if n == 4 then
        if name == Ascii("SET") && parts[3] == Ascii("XX") then Some(SetXX(key, parts[2]))
        else if name == Ascii("HSET") then Some(HSet(key, parts[2], parts[3]))
        else if name == Ascii("LRANGE") then Some(LRange(key, parts[2], parts[3]))
        else None
      else None
  }

  /** What a server reads off a request is the command that was sent, and nothing else reads so. */
  lemma CommandReadsBack(c: Command, parts: seq<bytes>)
    ensures CommandOf(parts) == Some(c) <==> parts == Parts(c)
  {
    CommandOfParts(c);
    if CommandOf(parts) == Some(c) {
      assert |parts| == |Parts(c)|;
      assert forall i | 0 <= i < |parts| :: parts[i] == Parts(c)[i];
    }
  }

  lemma CommandOfParts(c: Command)
    ensures CommandOf(Parts(c)) == Some(c)
  {
    assert Ascii("DEL")[0] == 68 && Ascii("GET")[0] == 71 && Ascii("TYPE")[0] == 84 && Ascii("HGETALL")[0] == 72;
    assert Ascii("PERSIST")[0] == Ascii("PTTL")[0] == 80 && Ascii("PERSIST")[1] == 69 && Ascii("PTTL")[1] == 84;
    assert Ascii("SET")[0] == 83 && Ascii("PEXPIRE")[0] == 80 && Ascii("RPUSH")[0] == 82;
    assert Ascii("HSET")[0] == 72 && Ascii("LRANGE")[0] == 76;
  }

  lemma PartsInjective(c: Command, d: Command)
    requires Parts(c) == Parts(d)
    ensures c == d
  {
    CommandOfParts(c);
    CommandOfParts(d);
  }

  function WireFrame(c: Command): bytes {
    CommandFrame(Parts(c))
  }

  predicate Framable(c: Command) {
    forall i | 0 <= i < |Parts(c)| :: Fits(Parts(c)[i])
  }

  lemma PartsPrefix(x: seq<bytes>, y: seq<bytes>, a: bytes, b: bytes)
    requires All(Fits, x) && All(Fits, y) && |x| < WORD && |y| < WORD
    requires CommandFrame(x) + a == CommandFrame(y) + b
    ensures x == y && a == b
  {
    var s, t := FrameAll(x), FrameAll(y);
    Associate(BigEndian(|x|, 8), s, a);
    Associate(BigEndian(|y|, 8), t, b);
    HeaderPrefix(|x|, |y|, s + a, t + b);
    FramesDelimit();
    StreamPrefix(Frame, Fits, x, y, a, b);
  }

  lemma WireFramePrefix(c: Command, d: Command, a: bytes, b: bytes)
    requires Framable(c) && Framable(d) && WireFrame(c) + a == WireFrame(d) + b
    ensures c == d && a == b
  {
    PartsPrefix(Parts(c), Parts(d), a, b);
    PartsInjective(c, d);
  }

  /** Framed commands delimit themselves. */
  lemma WireFramesDelimit()
    ensures SelfDelimiting(WireFrame, Framable)
  {
    forall c, d, a, b | Framable(c) && Framable(d) && WireFrame(c) + a == WireFrame(d) + b
      ensures c == d && a == b
    {
      WireFramePrefix(c, d, a, b);
    }
  }

  /** What a worker's command trace feeds to its hash. */
  function CommandStream(trace: seq<Command>): bytes {
    Stream(WireFrame, trace)
  }

  // ----- Two-level digests -----

  type Hash = bytes -> bytes

  /** A digest is printed as 64 hexadecimal characters. */
  ghost predicate IsHexDigest(h: Hash) {
    forall x :: |h(x)| == 64
  }

  function InnerDigests(h: Hash, streams: seq<bytes>): (r: seq<bytes>)
    ensures |r| == |streams|
    ensures forall w | 0 <= w < |streams| :: r[w] == h(streams[w])
  {
    seq(|streams|, w requires 0 <= w < |streams| => h(streams[w]))
  }

  /** The workers' digests, framed and digested again. */
  function Digest(h: Hash, streams: seq<bytes>): bytes {
    h(FrameAll(InnerDigests(h, streams)))
  }

  ghost predicate Collision(h: Hash, x: bytes, y: bytes) {
    x != y && h(x) == h(y)
  }

  /** Equal outer digests mean equal worker streams, or exhibit a collision. */
  lemma DigestBinds(h: Hash, a: seq<bytes>, b: seq<bytes>) returns (x: bytes, y: bytes)
    requires IsHexDigest(h) && Digest(h, a) == Digest(h, b)
    ensures a == b || Collision(h, x, y)
  {
    var p, q := InnerDigests(h, a), InnerDigests(h, b);
    x, y := FrameAll(p), FrameAll(q);
    if x == y {
      FramesDelimit();
      StreamInjective(Frame, Fits, p, q);
      if a != b {
        var w :| 0 <= w < |a| && a[w] != b[w];
        assert p[w] == q[w];
        x, y := a[w], b[w];
      }
    }
  }

  function CommandStreams(traces: seq<seq<Command>>): (r: seq<bytes>)
    ensures |r| == |traces|
    ensures forall w | 0 <= w < |traces| :: r[w] == CommandStream(traces[w])
  {
    seq(|traces|, w requires 0 <= w < |traces| => CommandStream(traces[w]))
  }

  /** Equal trace digests mean equal traces for every worker, or exhibit a collision. */
  lemma TraceDigestBinds(h: Hash, a: seq<seq<Command>>, b: seq<seq<Command>>) returns (x: bytes, y: bytes)
    requires IsHexDigest(h) && Digest(h, CommandStreams(a)) == Digest(h, CommandStreams(b))
    requires forall w | 0 <= w < |a| :: All(Framable, a[w])
    requires forall w | 0 <= w < |b| :: All(Framable, b[w])
    ensures a == b || Collision(h, x, y)
  {
    x, y := DigestBinds(h, CommandStreams(a), CommandStreams(b));
    if CommandStreams(a) == CommandStreams(b) {
      assert |a| == |CommandStreams(a)| == |b|;
      forall w | 0 <= w < |a|
        ensures a[w] == b[w]
      {
        assert CommandStreams(a)[w] == CommandStreams(b)[w];
        WireFramesDelimit();
        StreamInjective(WireFrame, Framable, a[w], b[w]);
      }
    }
  }

  // ----- Framed states -----

  /** What is hashed for one index: key, kind, expiry flag and value. */
  datatype Row = Row(key: bytes, kind: byte, expires: byte, value: bytes)

  function Fields4(r: Row): seq<bytes> {
    [r.key, [r.kind], [r.expires], r.value]
  }

  function RowFrame(r: Row): bytes {
    FrameAll(Fields4(r))
  }

  predicate RowFits(r: Row) {
    Fits(r.key) && Fits(r.value)
  }

  lemma RowFramePrefix(r: Row, t: Row, a: bytes, b: bytes)
    requires RowFits(r) && RowFits(t) && RowFrame(r) + a == RowFrame(t) + b
    ensures r == t && a == b
  {
    var x, y := Fields4(r), Fields4(t);
    FramesDelimit();
    StreamPrefix(Frame, Fits, x, y, a, b);
    assert x[0] == y[0] && x[1] == y[1] && x[2] == y[2] && x[3] == y[3];
  }

  /** Framed rows delimit themselves. */
  lemma RowFramesDelimit()
    ensures SelfDelimiting(RowFrame, RowFits)
  {
    forall r | RowFits(r)
      ensures RowFrame(r) != []
    {
      assert RowFrame(r) == Frame(r.key) + Stream(Frame, Fields4(r)[1..]);
    }
    forall r, t, a, b | RowFits(r) && RowFits(t) && RowFrame(r) + a == RowFrame(t) + b
      ensures r == t && a == b
    {
      RowFramePrefix(r, t, a, b);
    }
  }

  /** What a worker's state feeds to its hash. */
  function RowStream(rows: seq<Row>): bytes {
    Stream(RowFrame, rows)
  }

  function RowStreams(tables: seq<seq<Row>>): (r: seq<bytes>)
    ensures |r| == |tables|
    ensures forall w | 0 <= w < |tables| :: r[w] == RowStream(tables[w])
  {
    seq(|tables|, w requires 0 <= w < |tables| => RowStream(tables[w]))
  }

  /** Equal state digests mean equal states for every worker, or exhibit a collision. */
  lemma StateDigestBinds(h: Hash, a: seq<seq<Row>>, b: seq<seq<Row>>) returns (x: bytes, y: bytes)
    requires IsHexDigest(h) && Digest(h, RowStreams(a)) == Digest(h, RowStreams(b))
    requires forall w | 0 <= w < |a| :: All(RowFits, a[w])
    requires forall w | 0 <= w < |b| :: All(RowFits, b[w])
    ensures a == b || Collision(h, x, y)
  {
    x, y := DigestBinds(h, RowStreams(a), RowStreams(b));
    if RowStreams(a) == RowStreams(b) {
      assert |a| == |RowStreams(a)| == |b|;
      forall w | 0 <= w < |a|
        ensures a[w] == b[w]
      {
        assert RowStreams(a)[w] == RowStreams(b)[w];
        RowFramesDelimit();
        StreamInjective(RowFrame, RowFits, a[w], b[w]);
      }
    }
  }
}
