/**
 * The wire format shared by the server sessions and the client: each
 * package travels as a 4-byte big-endian length followed by that many
 * bytes of serialized package. Also the receive/send buffer growth rule,
 * the one-write-in-flight send queue, and the client's pending-request
 * bookkeeping.
 */
module Framing {
  import opened Wrappers
  import Arith

  newtype Byte = b: int | 0 <= b < 256

  const Pow8: nat := 0x100
  const Pow16: nat := 0x1_0000
  const Pow24: nat := 0x100_0000
  const Pow32: nat := 0x1_0000_0000

  /**
   * The 4 header bytes of a body length, most significant first: each
   * byte is the length masked to its 8 bits and shifted down, so only
   * the low 32 bits of the length are sent. The second component is the
   * header size reported to the caller.
   */
  function EncodeHeader(length: nat): (r: (seq<Byte>, nat))
    ensures |r.0| == 4 && r.1 == 4
    ensures r.0[0] as int == length / Pow24 % Pow8 && r.0[1] as int == length / Pow16 % Pow8
    ensures r.0[2] as int == length / Pow8 % Pow8 && r.0[3] as int == length % Pow8
  {
    ([(length / Pow24 % Pow8) as Byte, (length / Pow16 % Pow8) as Byte,
      (length / Pow8 % Pow8) as Byte, (length % Pow8) as Byte], 4)
  }

  /** The big-endian unsigned 32-bit number in the first 4 bytes of the buffer. */
  function DecodeHeader(buf: seq<Byte>): (n: nat)
    requires |buf| >= 4
    ensures n < Pow32
    ensures n / Pow24 == buf[0] as int && n % Pow8 == buf[3] as int
  {
    var n := buf[0] as int * Pow24 + buf[1] as int * Pow16 + buf[2] as int * Pow8 + buf[3] as int;
    Arith.DivModUnique(n, Pow24, buf[0] as int, buf[1] as int * Pow16 + buf[2] as int * Pow8 + buf[3] as int);
    Arith.DivModUnique(n, Pow8, buf[0] as int * Pow16 + buf[1] as int * Pow8 + buf[2] as int, buf[3] as int);
    n
  }

  /** Decoding reads no byte past the fourth. */
  lemma DecodeReadsFourBytes(a: seq<Byte>, b: seq<Byte>)
    requires |a| >= 4 && |b| >= 4 && a[..4] == b[..4]
    ensures DecodeHeader(a) == DecodeHeader(b)
  {
    assert a[0] == a[..4][0] && a[1] == a[..4][1] && a[2] == a[..4][2] && a[3] == a[..4][3];
    assert b[0] == b[..4][0] && b[1] == b[..4][1] && b[2] == b[..4][2] && b[3] == b[..4][3];
  }

  /** The header round trip: decoding an encoded length gives it back modulo 2^32. */
  lemma HeaderRoundTrip(length: nat, rest: seq<Byte>)
    ensures DecodeHeader(EncodeHeader(length).0 + rest) == length % Pow32
  {
    var h := EncodeHeader(length).0;
    var buf := h + rest;
    assert buf[0] == h[0] && buf[1] == h[1] && buf[2] == h[2] && buf[3] == h[3];
    var x := length;
    var q1 := x / Pow8;
    var q2 := q1 / Pow8;
    var q3 := q2 / Pow8;
    var q4 := q3 / Pow8;
    var b3 := x % Pow8;
    var b2 := q1 % Pow8;
    var b1 := q2 % Pow8;
    var b0 := q3 % Pow8;
    assert x == Pow8 * q1 + b3 && q1 == Pow8 * q2 + b2 && q2 == Pow8 * q3 + b1 && q3 == Pow8 * q4 + b0;
    Arith.DivModUnique(x, Pow16, q2, Pow8 * b2 + b3);
    Arith.DivModUnique(x, Pow24, q3, Pow16 * b1 + Pow8 * b2 + b3);
    var d := Pow24 * b0 + Pow16 * b1 + Pow8 * b2 + b3;
    Arith.DivModUnique(x, Pow32, q4, d);
  }

  /** A package on the wire: the header for its size, then the package bytes; the size written is 4 + that size. */
  function EncodePkg(pkg: seq<Byte>): (r: (seq<Byte>, nat))
    ensures r.1 == 4 + |pkg| && |r.0| == r.1
    ensures r.0 == EncodeHeader(|pkg|).0 + pkg
  {
    var (h, n) := EncodeHeader(|pkg|);
    (h + pkg, n + |pkg|)
  }

  /**
   * Reads one package off the front of the received bytes: None until
   * the header and the whole body have arrived; otherwise the body and
   * what follows it.
   */
  function SplitFrame(buf: seq<Byte>): (r: Option<(seq<Byte>, seq<Byte>)>)
    ensures r.Some? <==> |buf| >= 4 && |buf| >= 4 + DecodeHeader(buf)
    ensures r.Some? ==> |r.value.0| == DecodeHeader(buf) && buf == buf[..4] + r.value.0 + r.value.1
    ensures r.Some? ==> r.value == (buf[4..4 + DecodeHeader(buf)], buf[4 + DecodeHeader(buf)..])
  {
    if |buf| < 4 then None
    else
      var n := DecodeHeader(buf);
      if |buf| < 4 + n then None
      else
        assert buf == buf[..4] + buf[4..4 + n] + buf[4 + n..];
        Some((buf[4..4 + n], buf[4 + n..]))
  }

  /** Framing round trip: a package shorter than 2^32 bytes is read back whole, leaving what followed it. */
  lemma FrameRoundTrip(pkg: seq<Byte>, rest: seq<Byte>)
    requires |pkg| < Pow32
    ensures SplitFrame(EncodePkg(pkg).0 + rest) == Some((pkg, rest))
  {
    var h := EncodeHeader(|pkg|).0;
    AfterHeader(h, pkg, rest);
    HeaderRoundTrip(|pkg|, pkg + rest);
    var buf := EncodePkg(pkg).0 + rest;
    assert buf == h + (pkg + rest);
    assert DecodeHeader(buf) == |pkg|;
  }

  /** A header, a body and what follows, laid end to end, come apart at the same places. */
  lemma AfterHeader(h: seq<Byte>, pkg: seq<Byte>, rest: seq<Byte>)
    requires |h| == 4
    ensures (h + pkg) + rest == h + (pkg + rest)
    ensures ((h + pkg) + rest)[4..4 + |pkg|] == pkg && ((h + pkg) + rest)[4 + |pkg|..] == rest
  {
    var buf := (h + pkg) + rest;
    assert buf[4..] == pkg + rest;
  }

  // ---------------------------------------------------------------------
  // Buffer growth
  // ---------------------------------------------------------------------

  /**
   * Makes room for a package of the given body length: while the capacity
   * is below 4 + body, the wanted size is rounded down to a multiple of
   * 1024 plus 1024 and that much is reserved (reserve is taken to grant
   * exactly what is asked). Returns the new capacity.
   */
  method Grow(capacity: nat, body: nat) returns (cap: nat)
    ensures cap >= 4 + body
    ensures capacity >= 4 + body ==> cap == capacity
    ensures capacity < 4 + body ==> cap % 1024 == 0 && 4 + body < cap <= 4 + body + 1024
  {
    cap := capacity;
    var size := 4 + body;
    while cap < size
      invariant capacity >= 4 + body ==> cap == capacity
      invariant cap == capacity ==> size == 4 + body
      invariant cap != capacity ==> cap == size && size % 1024 == 0 && 4 + body < size <= 4 + body + 1024
      decreases size - cap
    {
      var next := GrowStep(size);
      size := next;
      cap := size;
    }
    if capacity < 4 + body {
      assert cap != capacity;
    }
  }

  /** One growth step: the next multiple of 1024 strictly above size. */
  function GrowStep(size: nat): (r: nat)
    ensures r % 1024 == 0 && size < r <= size + 1024
  {
    Arith.DivModUnique(size, 1024, size / 1024, size % 1024);
    var r := (size / 1024) * 1024 + 1024;
    Arith.DivModUnique(r, 1024, size / 1024 + 1, 0);
    r
  }

  // ---------------------------------------------------------------------
  // The send queue: one write in flight
  // ---------------------------------------------------------------------

  /** Packages waiting to be written (the front one is being written) and whether a write is in flight. */
  datatype Sender<P> = Sender(queue: seq<P>, writing: bool)

  /** A write is in flight exactly while something is queued. */
  predicate OneInFlight<P>(s: Sender<P>)
  {
    s.writing <==> s.queue != []
  }

  /** Queues a package; the write is started only when the queue was empty before the push. */
  function Push<P>(s: Sender<P>, p: P): (r: (Sender<P>, bool))
    ensures r.0.queue == s.queue + [p]
    ensures r.1 <==> s.queue == []
    ensures OneInFlight(s) ==> OneInFlight(r.0)
  {
    var start := s.queue == [];
    (Sender(s.queue + [p], s.writing || start), start)
  }

  /** A write completed: the front package leaves the queue, and the next write starts when more is queued. */
  function Written<P>(s: Sender<P>): (r: (Sender<P>, Option<P>))
    requires s.queue != []
    ensures r.0.queue == s.queue[1..]
    ensures r.1.Some? <==> |s.queue| > 1
    ensures r.1.Some? ==> r.1.value == s.queue[1]
    ensures OneInFlight(s) ==> OneInFlight(r.0)
  {
    var q := s.queue[1..];
    (Sender(q, q != []), if q != [] then Some(q[0]) else None)
  }

  /** Packages are written in the order they were pushed: pushing then completing every write sends them in order. */
  lemma {:induction false} PushesWrittenInOrder<P>(s: Sender<P>, ps: seq<P>)
    requires s.queue == [] && !s.writing
    ensures PushAll(s, ps).queue == ps
    ensures ps != [] ==> PushAll(s, ps).writing
  {
    if ps != [] {
      PushesWrittenInOrder(s, ps[..|ps| - 1]);
    }
  }

  /** Pushes several packages in turn. */
  function PushAll<P>(s: Sender<P>, ps: seq<P>): (r: Sender<P>)
  {
    if ps == [] then s else Push(PushAll(s, ps[..|ps| - 1]), ps[|ps| - 1]).0
  }

  // ---------------------------------------------------------------------
  // The client's pending requests
  // ---------------------------------------------------------------------

  /**
   * The client's outstanding requests: by request id, the package's
   * sequence id and the handle of its entry in the timeout table; the
   * timeout table by handle, the sending time and package.
   */
  datatype Pending = Pending(sending: map<nat, (nat, nat)>, timeouts: map<nat, (int, nat)>)

  /** Every outstanding request has its own entry in the timeout table. */
  predicate Linked(p: Pending)
  {
    (forall id :: id in p.sending ==> p.sending[id].1 in p.timeouts)
    && (forall a, b :: a in p.sending && b in p.sending && a != b ==> p.sending[a].1 != p.sending[b].1)
  }

  /**
   * A request is sent: its timeout entry is added under a fresh handle,
   * and the request id is recorded unless it is already outstanding (the
   * first record stays).
   */
  function Register(p: Pending, requestId: nat, pkgSeq: nat, now: int, handle: nat): (r: Pending)
    requires handle !in p.timeouts
    ensures r.timeouts == p.timeouts[handle := (now, pkgSeq)]
    ensures requestId in p.sending ==> r.sending == p.sending
    ensures requestId !in p.sending ==> r.sending == p.sending[requestId := (pkgSeq, handle)]
    ensures Linked(p) ==> Linked(r)
  {
    Pending(if requestId in p.sending then p.sending else p.sending[requestId := (pkgSeq, handle)],
            p.timeouts[handle := (now, pkgSeq)])
  }

  /**
   * A response arrives: with a positive request id that is outstanding,
   * the request and its timeout entry are removed; anything else changes
   * nothing.
   */
  function Respond(p: Pending, requestId: nat): (r: Pending)
    ensures requestId > 0 && requestId in p.sending ==>
              r.sending == p.sending - {requestId} && r.timeouts == p.timeouts - {p.sending[requestId].1}
    ensures requestId == 0 || requestId !in p.sending ==> r == p
    ensures requestId !in r.sending || requestId == 0
  {
    if requestId > 0 && requestId in p.sending then
      Pending(p.sending - {requestId}, p.timeouts - {p.sending[requestId].1})
    else p
  }

  /** Answering a request keeps every other outstanding request linked to its timeout entry. */
  lemma RespondKeepsLinked(p: Pending, requestId: nat)
    requires Linked(p)
    ensures Linked(Respond(p, requestId))
  {
  }

  /** A request answered right after it is registered leaves no trace of it. */
  lemma RegisterThenRespond(p: Pending, requestId: nat, pkgSeq: nat, now: int, handle: nat)
    requires handle !in p.timeouts && requestId > 0 && requestId !in p.sending
    ensures Respond(Register(p, requestId, pkgSeq, now, handle), requestId) == p
  {
    var r := Register(p, requestId, pkgSeq, now, handle);
    assert r.sending - {requestId} == p.sending;
    assert r.timeouts - {handle} == p.timeouts;
  }
}
