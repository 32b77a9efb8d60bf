/** The length-prefixed framing of Peer::Send and Peer::_Recv in src/units/server_unit.cpp. */
module Framing {

  type Byte = b: int | 0 <= b < 256

  const HEAD_SIZE: nat := 2
  const BODY_SIZE: nat := 65536 - HEAD_SIZE

  /** The 16-bit length in network order; longer lengths lose their upper bits. */
  function Header(n: nat): (h: seq<Byte>)
    ensures |h| == HEAD_SIZE
  {
    [n % 65536 / 256, n % 256]
  }

  function Length(hi: Byte, lo: Byte): (n: nat)
    ensures n < 65536
  {
    hi * 256 + lo
  }

  lemma LengthOfHeader(n: nat)
    ensures Length(Header(n)[0], Header(n)[1]) == n % 65536
    ensures n < 65536 ==> n % 65536 == n
  {
    var q, m := n / 65536, n % 65536;
    assert n == q * 65536 + m;
    assert n == (q * 256 + m / 256) * 256 + m % 256;
  }

  lemma HeaderOfLength(hi: Byte, lo: Byte)
    ensures Header(Length(hi, lo)) == [hi, lo]
  {
  }

  function Encode(msg: seq<Byte>): seq<Byte> {
    Header(|msg|) + msg
  }

  /** On the wire: two bytes of length, the more significant one first, then the message. */
  lemma FrameLayout(msg: seq<Byte>)
    ensures |Encode(msg)| == |msg| + 2
    ensures Encode(msg)[0] as int * 256 + Encode(msg)[1] as int == |msg| % 65536
    ensures Encode(msg)[2..] == msg
  {
    LengthOfHeader(|msg|);
  }

  function EncodeAll(msgs: seq<seq<Byte>>): seq<Byte> {
    if msgs == [] then [] else Encode(msgs[0]) + EncodeAll(msgs[1..])
  }

  /** The messages that are complete in a byte stream, and the bytes left over. */
  function Decode(stream: seq<Byte>): (r: (seq<seq<Byte>>, seq<Byte>))
    decreases |stream|
  {
    if |stream| < HEAD_SIZE then ([], stream)
    else
      var end := HEAD_SIZE + Length(stream[0], stream[1]);
      if |stream| < end then ([], stream)
      else
        var (msgs, rest) := Decode(stream[end..]);
        ([stream[HEAD_SIZE..end]] + msgs, rest)
  }

  /** One complete message in front of a stream comes out first. */
  lemma DecodeFirst(msg: seq<Byte>, stream: seq<Byte>)
    requires |msg| < 65536
    ensures Decode(Encode(msg) + stream) == ([msg] + Decode(stream).0, Decode(stream).1)
  {
    LengthOfHeader(|msg|);
    var s := Encode(msg) + stream;
    var end := HEAD_SIZE + |msg|;
    assert s[0] == Header(|msg|)[0] && s[1] == Header(|msg|)[1];
    assert s[HEAD_SIZE..end] == msg && s[end..] == stream;
  }

  /** What is framed and sent is what is received. */
  lemma {:induction false} RoundTrip(msgs: seq<seq<Byte>>)
    requires forall i :: 0 <= i < |msgs| ==> |msgs[i]| < 65536
    ensures Decode(EncodeAll(msgs)) == (msgs, [])
  {
    if msgs != [] {
      RoundTrip(msgs[1..]);
      DecodeFirst(msgs[0], EncodeAll(msgs[1..]));
      assert [msgs[0]] + msgs[1..] == msgs;
    }
  }

  /** A single message survives exactly when its length fits the header; Send's limit is below that. */
  lemma RoundTripIff(msg: seq<Byte>)
    ensures Decode(Encode(msg)) == ([msg], []) <==> |msg| < 65536
  {
    if |msg| < 65536 {
      RoundTrip([msg]);
      assert EncodeAll([msg]) == Encode(msg);
    } else {
      LengthOfHeader(|msg|);
      var s := Encode(msg);
      var end := HEAD_SIZE + |msg| % 65536;
      assert |s[HEAD_SIZE..end]| < |msg|;
      assert Decode(s).0[0] == s[HEAD_SIZE..end];
    }
  }

  /** One turn of decoding. */
  lemma DecodeTurn(s: seq<Byte>, first: seq<Byte>, rest: seq<Byte>)
    requires |s| >= HEAD_SIZE && |first| == Length(s[0], s[1]) && s[HEAD_SIZE..] == first + rest
    ensures Decode(s) == ([first] + Decode(rest).0, Decode(rest).1)
  {
    var end := HEAD_SIZE + |first|;
    assert s[HEAD_SIZE..end] == s[HEAD_SIZE..][..|first|] == first && s[end..] == s[HEAD_SIZE..][|first|..] == rest;
  }

  lemma DecodeShort(s: seq<Byte>)
    requires |s| >= HEAD_SIZE ==> |s| < HEAD_SIZE + Length(s[0], s[1])
    ensures Decode(s) == ([], s)
  {
  }

  /** Decoding may stop anywhere in the stream and go on later with the bytes left over. */
  lemma {:induction false} DecodeResumes(a: seq<Byte>, b: seq<Byte>)
    ensures Decode(a + b) == (Decode(a).0 + Decode(Decode(a).1 + b).0, Decode(Decode(a).1 + b).1)
    decreases |a|
  {
    hide Decode, Length;
    if |a| >= HEAD_SIZE && |a| >= HEAD_SIZE + Length(a[0], a[1]) {
      var end := HEAD_SIZE + Length(a[0], a[1]);
      var first, rest := a[HEAD_SIZE..end], a[end..];
      DecodeTurn(a, first, rest);
      assert (a + b)[HEAD_SIZE..] == first + (rest + b);
      DecodeTurn(a + b, first, rest + b);
      DecodeResumes(rest, b);
      var (msgs, last) := Decode(rest);
      assert [first] + (msgs + Decode(last + b).0) == [first] + msgs + Decode(last + b).0;
    } else {
      DecodeShort(a);
      assert [] + Decode(a + b).0 == Decode(a + b).0;
    }
  }

  /** Every prefix of the stream decodes to a prefix of the messages. */
  lemma PrefixDecodesToPrefix(msgs: seq<seq<Byte>>, n: nat)
    requires forall i :: 0 <= i < |msgs| ==> |msgs[i]| < 65536
    requires n <= |EncodeAll(msgs)|
    ensures Decode(EncodeAll(msgs)[..n]).0 <= msgs
  {
    hide Decode;
    var s := EncodeAll(msgs);
    RoundTrip(msgs);
    DecodeResumes(s[..n], s[n..]);
    assert s[..n] + s[n..] == s;
  }

  function Concat(chunks: seq<seq<Byte>>): seq<Byte> {
    if chunks == [] then [] else chunks[0] + Concat(chunks[1..])
  }

  /** Decoding chunk by chunk. */
  function DecodeChunks(pending: seq<Byte>, chunks: seq<seq<Byte>>): (seq<seq<Byte>>, seq<Byte>)
    decreases chunks
  {
    if chunks == [] then ([], pending)
    else
      var (first, rest) := Decode(pending + chunks[0]);
      var (msgs, last) := DecodeChunks(rest, chunks[1..]);
      (first + msgs, last)
  }

  lemma {:induction false} DecodeIdempotent(s: seq<Byte>)
    ensures Decode(Decode(s).1) == ([], Decode(s).1)
    decreases |s|
  {
    if |s| >= HEAD_SIZE && |s| >= HEAD_SIZE + Length(s[0], s[1]) {
      DecodeIdempotent(s[HEAD_SIZE + Length(s[0], s[1])..]);
    }
  }

  /** How the stream is cut into chunks makes no difference. */
  lemma {:induction false} ChunkingIrrelevant(pending: seq<Byte>, chunks: seq<seq<Byte>>)
    requires Decode(pending) == ([], pending)
    ensures DecodeChunks(pending, chunks) == Decode(pending + Concat(chunks))
    decreases chunks
  {
    hide Decode;
    if chunks == [] {
      assert pending + [] == pending;
    } else {
      var a := pending + chunks[0];
      var (first, rest) := Decode(a);
      DecodeIdempotent(a);
      ChunkingIrrelevant(rest, chunks[1..]);
      DecodeResumes(a, Concat(chunks[1..]));
      assert pending + Concat(chunks) == a + Concat(chunks[1..]);
    }
  }

  /** Whatever chunks the framed messages arrive in, exactly those messages are received, in order. */
  lemma ReceivedIsSent(msgs: seq<seq<Byte>>, chunks: seq<seq<Byte>>)
    requires forall i :: 0 <= i < |msgs| ==> |msgs[i]| <= BODY_SIZE
    requires Concat(chunks) == EncodeAll(msgs)
    ensures DecodeChunks([], chunks) == (msgs, [])
  {
    ChunkingIrrelevant([], chunks);
    RoundTrip(msgs);
    assert [] + Concat(chunks) == EncodeAll(msgs);
  }

  /** Delivering the first message of what is left to decode. */
  lemma DeliverFirst(msgs: seq<seq<Byte>>, msg: seq<Byte>, rest: seq<Byte>)
    requires |msg| < 65536
    ensures msgs + Decode(Encode(msg) + rest).0 == (msgs + [msg]) + Decode(rest).0
    ensures Decode(Encode(msg) + rest).1 == Decode(rest).1
  {
    DecodeFirst(msg, rest);
  }

  // ---------- Sending ----------

  /** The guard of Server::Send. */
  method Accepts(msg: seq<Byte>) returns (ok: bool)
    ensures ok ==> Decode(Encode(msg)) == ([msg], [])
    ensures ok <==> |msg| <= 65534
    ensures ok <==> |Encode(msg)| <= 65536
  {
    ok := !(|msg| > BODY_SIZE);
    RoundTripIff(msg);
  }

  /** Peer::Send makes room at the end, moves the body up and writes the header over the front. */
  method Frame(msg: seq<Byte>) returns (buf: seq<Byte>)
    ensures buf == Encode(msg)
  {
    var osize := |msg|;
    buf := msg + seq(HEAD_SIZE, _ => 0);
    buf := buf[..HEAD_SIZE] + buf[..osize];
    var nsize := Header(osize);
    buf := nsize + buf[HEAD_SIZE..];
    assert buf[HEAD_SIZE..] == msg;
  }

  // ---------- Receiving ----------

  /** The two reads of Peer::_Recv. Each takes from the socket exactly the bytes it still needs. */
  class Reader {
    var inBody: bool
    var need: nat
    var got: seq<Byte>

    ghost predicate Valid()
      reads this
    {
      |got| < need && need < 65536 && (!inBody ==> need == HEAD_SIZE)
    }

    /** The bytes received and not yet delivered in a message. */
    ghost function Pending(): seq<Byte>
      reads this
    {
      if inBody then Header(need) + got else got
    }

    constructor ()
      ensures Valid() && Pending() == []
    {
      inBody, need, got := false, HEAD_SIZE, [];
    }

    /** Bytes arrive: every read that can complete does, and every completed body is delivered. */
    method Feed(chunk: seq<Byte>) returns (msgs: seq<seq<Byte>>)
      requires Valid()
      modifies this
      ensures Valid()
      ensures (msgs, Pending()) == Decode(old(Pending()) + chunk)
    {
      hide Decode, Length, Header;
      msgs := [];
      var rest := chunk;
      ghost var all := Decode(Pending() + chunk);
      assert msgs + all.0 == all.0;
      while true
        invariant need < 65536 && |got| <= need && (!inBody ==> need == HEAD_SIZE && |got| < need)
        invariant all == (msgs + Decode(Pending() + rest).0, Decode(Pending() + rest).1)
        decreases 2 * |rest| + if inBody then 1 else 0
      {
        ghost var before := Pending() + rest;
        var n := if need - |got| < |rest| then need - |got| else |rest|;
        assert got + rest == (got + rest[..n]) + rest[n..];
        got := got + rest[..n];
        rest := rest[n..];
        assert Pending() + rest == before;
        if |got| < need {
          Incomplete(inBody, need, got);
          assert Pending() + rest == Pending();
          assert msgs + [] == msgs;
          break;
        }
        if inBody {
          assert before == Encode(got) + rest;
          DeliverFirst(msgs, got, rest);
          msgs := msgs + [got];
          inBody, need, got := false, HEAD_SIZE, [];
          assert Pending() + rest == rest;
        } else {
          HeaderOfLength(got[0], got[1]);
          inBody, need, got := true, Length(got[0], got[1]), [];
          assert Pending() + rest == before;
        }
      }
    }
  }

  /** A stream that stops inside a header or a body holds no message. */
  lemma Incomplete(inBody: bool, need: nat, got: seq<Byte>)
    requires |got| < need < 65536 && (!inBody ==> need == HEAD_SIZE)
    ensures var p := if inBody then Header(need) + got else got; Decode(p) == ([], p)
  {
    LengthOfHeader(need);
  }
}
