/**
  The message authenticated by the Shell: the Python expression (src/syllva/gate/mac.py), the Rust
  incremental feed (shell/proto/src/mac.rs) and the relay message (shell/proto/src/relay.rs).
  The hash itself is not modelled; these are the bytes that go into it.
*/
module MacMessage {
  import opened Wrappers

  type Byte = b: int | 0 <= b < 256
  type Bytes = seq<Byte>

  const WIDTH := 0x1_0000_0000

  function Ascii(s: string): (r: Bytes)
    requires forall i :: 0 <= i < |s| ==> s[i] < 128 as char
    ensures |r| == |s| && forall i :: 0 <= i < |s| ==> r[i] == s[i] as int
  {
    seq(|s|, i requires 0 <= i < |s| => s[i] as int as Byte)
  }

  const GATE_DOMAIN := Ascii("syllva-gate-v1\0")
  const RELAY_DOMAIN := Ascii("syllva-relay-v1\0")

  function LowByte(n: nat): Byte { n % 256 }

  function BigEndian32(n: nat): (r: Bytes)
    requires n < WIDTH
    ensures |r| == 4
  {
    [n / 256 / 256 / 256, LowByte(n / 256 / 256), LowByte(n / 256), LowByte(n)]
  }

  lemma BigEndian32Injective(m: nat, n: nat)
    requires m < WIDTH && n < WIDTH && BigEndian32(m) == BigEndian32(n)
    ensures m == n
  {
    hide BigEndian32;
    BigEndian32Digits(m);
    BigEndian32Digits(n);
  }

  function FromBigEndian32(r: Bytes): int
    requires |r| == 4
  {
    16777216 * (r[0] as int) + 65536 * (r[1] as int) + 256 * (r[2] as int) + (r[3] as int)
  }

  lemma BigEndian32Digits(n: nat)
    requires n < WIDTH
    ensures FromBigEndian32(BigEndian32(n)) == n
  {
    var a, b := n / 256, n / 256 / 256;
    assert n == a * 256 + n % 256 && a == b * 256 + a % 256 && b == (b / 256) * 256 + b % 256;
    assert b < 256 * 256;
  }

  // ---------------------------------------------------------------------------------------
  // Python

  /** `len(data).to_bytes(4, "big")`; None is the OverflowError. */
  function Len32(data: Bytes): Option<Bytes> {
    if |data| < WIDTH then Some(BigEndian32(|data|)) else None
  }

  function PythonMessage(nonce: Bytes, digest: Bytes): Option<Bytes> {
    if Len32(nonce).None? || Len32(digest).None? then None
    else Some(GATE_DOMAIN + Len32(nonce).value + nonce + Len32(digest).value + digest)
  }

  // ---------------------------------------------------------------------------------------
  // Rust

  /** `(part.len() as u32).to_be_bytes()` followed by the part: the cast truncates. */
  function Frame(part: Bytes): Bytes { BigEndian32(|part| % WIDTH) + part }

  function Frames(parts: seq<Bytes>): Bytes {
    if parts == [] then [] else Frame(parts[0]) + Frames(parts[1..])
  }

  class Hasher {
    var fed: Bytes

    constructor ()
      ensures fed == []
    {
      fed := [];
    }

    method Update(part: Bytes)
      modifies this
      ensures fed == old(fed) + part
    {
      fed := fed + part;
    }
  }

  function RustMessage(nonce: Bytes, digest: Bytes): Bytes { GATE_DOMAIN + Frames([nonce, digest]) }

  function RelayMessage(window: Bytes): Bytes { RELAY_DOMAIN + Frames([window]) }

  lemma {:induction false} FramesSnoc(parts: seq<Bytes>, part: Bytes)
    ensures Frames(parts + [part]) == Frames(parts) + Frame(part)
  {
    if parts == [] {
      assert parts + [part] == [part];
      assert Frames([part]) == Frame(part) + Frames([]);
    } else {
      assert (parts + [part])[1..] == parts[1..] + [part];
      FramesSnoc(parts[1..], part);
    }
  }

  method GateFeed(nonce: Bytes, digest: Bytes) returns (message: Bytes)
    ensures message == RustMessage(nonce, digest)
  {
    hide BigEndian32;
    var mac := new Hasher();
    mac.Update(GATE_DOMAIN);
    var parts := [nonce, digest];
    for i := 0 to |parts|
      invariant mac.fed == GATE_DOMAIN + Frames(parts[..i])
    {
      mac.Update(BigEndian32(|parts[i]| % WIDTH));
      mac.Update(parts[i]);
      FramesSnoc(parts[..i], parts[i]);
      assert parts[..i] + [parts[i]] == parts[..i+1];
    }
    assert parts[..|parts|] == parts;
    message := mac.fed;
  }

  method RelayFeed(window: Bytes) returns (message: Bytes)
    ensures message == RelayMessage(window)
  {
    hide BigEndian32;
    var mac := new Hasher();
    mac.Update(RELAY_DOMAIN);
    mac.Update(BigEndian32(|window| % WIDTH));
    mac.Update(window);
    assert Frames([window]) == Frame(window) + [];
    message := mac.fed;
  }

  // ---------------------------------------------------------------------------------------
  // Layout

  lemma TwoFrames(nonce: Bytes, digest: Bytes)
    ensures Frames([nonce, digest]) == Frame(nonce) + Frame(digest)
    ensures Frames([nonce]) == Frame(nonce)
  {
    hide Frame;
    assert [nonce, digest][1..] == [digest] && [digest][1..] == [] && [nonce][1..] == [];
    assert Frames([digest]) == Frame(digest) + [] && Frames([nonce]) == Frame(nonce) + [];
  }

  lemma DomainNames()
    ensures |GATE_DOMAIN| == 15 && (forall i :: 0 <= i < 14 ==> GATE_DOMAIN[i] == "syllva-gate-v1"[i] as int) && GATE_DOMAIN[14] == 0
    ensures |RELAY_DOMAIN| == 16 && (forall i :: 0 <= i < 15 ==> RELAY_DOMAIN[i] == "syllva-relay-v1"[i] as int) && RELAY_DOMAIN[15] == 0
  {
    forall i | 0 <= i < 14 ensures "syllva-gate-v1\0"[i] == "syllva-gate-v1"[i] {}
    forall i | 0 <= i < 15 ensures "syllva-relay-v1\0"[i] == "syllva-relay-v1"[i] {}
  }

  lemma FrameFits(part: Bytes)
    requires |part| < WIDTH
    ensures Frame(part) == BigEndian32(|part|) + part && FromBigEndian32(BigEndian32(|part|)) == |part|
  {
    BigEndian32Digits(|part|);
    hide BigEndian32, FromBigEndian32;
  }

  /** A name, then each part after the four bytes of its length. */
  predicate LaidOut(m: Bytes, name: Bytes, first: Bytes, second: Bytes) {
    var i := |name| + 4;
    var j := i + |first|;
    && |m| == j + 4 + |second| && m[..|name|] == name
    && FromBigEndian32(m[|name|..i]) == |first| && m[i..j] == first
    && FromBigEndian32(m[j..j + 4]) == |second| && m[j + 4..] == second
  }

  lemma FramesLaidOut(name: Bytes, first: Bytes, second: Bytes)
    requires |first| < WIDTH && |second| < WIDTH
    ensures LaidOut(name + Frames([first, second]), name, first, second)
  {
    hide BigEndian32, FromBigEndian32, Frames, Frame;
    TwoFrames(first, second);
    FrameFits(first);
    FrameFits(second);
    var a, b := BigEndian32(|first|), BigEndian32(|second|);
    FiveParts(name, a, first, b, second);
    assert name + Frames([first, second]) == name + (a + first + (b + second));
  }

  lemma FiveParts(d: Bytes, a: Bytes, n: Bytes, b: Bytes, e: Bytes)
    ensures var m := d + (a + n + (b + e));
      var i, j := |d| + |a|, |d| + |a| + |n|;
      && |m| == j + |b| + |e| && m[..|d|] == d && m[|d|..i] == a && m[i..j] == n && m[j..j + |b|] == b && m[j + |b|..] == e
  {
  }

  /** The gate message part by part: the name with its zero byte, then nonce and hash, each after its big-endian length. */
  lemma GateLayout(nonce: Bytes, digest: Bytes)
    requires |nonce| < WIDTH && |digest| < WIDTH
    ensures LaidOut(RustMessage(nonce, digest), GATE_DOMAIN, nonce, digest)
  {
    FramesLaidOut(GATE_DOMAIN, nonce, digest);
    hide LaidOut, Frames;
  }

  /** The relay message: its own name, the length of the window label, the label. */
  lemma RelayLayout(window: Bytes)
    requires |window| < WIDTH
    ensures var m := RelayMessage(window);
      |m| == 20 + |window| && m[..16] == RELAY_DOMAIN && FromBigEndian32(m[16..20]) == |window| && m[20..] == window
  {
    OneFrame(RELAY_DOMAIN, window);
    hide Frames, FromBigEndian32;
  }

  lemma OneFrame(name: Bytes, part: Bytes)
    requires |part| < WIDTH
    ensures var m, k := name + Frames([part]), |name|;
      |m| == k + 4 + |part| && m[..k] == name && FromBigEndian32(m[k..k + 4]) == |part| && m[k + 4..] == part
  {
    hide BigEndian32, FromBigEndian32, Frames, Frame;
    TwoFrames(part, []);
    FrameFits(part);
    var a := BigEndian32(|part|);
    FiveParts(name, a, part, [], []);
    assert name + Frames([part]) == name + (a + part + ([] + []));
  }

  // ---------------------------------------------------------------------------------------
  // Properties

  /** The two programs agree exactly on parts whose length fits in 32 bits. */
  lemma PythonAgreesWithRust(nonce: Bytes, digest: Bytes)
    ensures PythonMessage(nonce, digest) == Some(RustMessage(nonce, digest))
      <==> |nonce| < WIDTH && |digest| < WIDTH
  {
    hide BigEndian32;
    if |nonce| < WIDTH && |digest| < WIDTH {
      assert [nonce, digest][1..] == [digest] && [digest][1..] == [];
      var n, d := BigEndian32(|nonce|), BigEndian32(|digest|);
      assert Frame(nonce) == n + nonce && Frame(digest) == d + digest;
      assert Frames([digest]) == Frame(digest) + [];
      assert Frames([nonce, digest]) == (n + nonce) + ((d + digest) + []);
      assert GATE_DOMAIN + n + nonce + d + digest == GATE_DOMAIN + ((n + nonce) + ((d + digest) + []));
    }
  }

  ghost predicate Fits(parts: seq<Bytes>) { forall i :: 0 <= i < |parts| ==> |parts[i]| < WIDTH }

  /** One frame at the start of a message gives back its part and what follows. */
  lemma FrameInjective(p: Bytes, x: Bytes, q: Bytes, y: Bytes)
    requires |p| < WIDTH && |q| < WIDTH && Frame(p) + x == Frame(q) + y
    ensures p == q && x == y
  {
    hide BigEndian32;
    var m := Frame(p) + x;
    var h, k := BigEndian32(|p|), BigEndian32(|q|);
    assert m == h + (p + x) && m == k + (q + y);
    assert m[..4] == h == k;
    BigEndian32Injective(|p|, |q|);
    assert m[4..] == p + x == q + y;
    assert m[4..][..|p|] == p == q;
    assert m[4..][|p|..] == x == y;
  }

  /** Framed parts can be split in only one way. */
  lemma {:induction false} FramesInjective(ps: seq<Bytes>, qs: seq<Bytes>)
    requires Fits(ps) && Fits(qs) && Frames(ps) == Frames(qs)
    ensures ps == qs
  {
    hide Frame, BigEndian32;
    if ps != [] && qs != [] {
      FrameInjective(ps[0], Frames(ps[1..]), qs[0], Frames(qs[1..]));
      FramesInjective(ps[1..], qs[1..]);
      assert ps == [ps[0]] + ps[1..] && qs == [qs[0]] + qs[1..];
    } else {
      FrameNotEmpty(ps);
      FrameNotEmpty(qs);
    }
  }

  lemma FrameNotEmpty(ps: seq<Bytes>)
    ensures ps != [] ==> |Frames(ps)| >= 4
  {
    hide BigEndian32;
  }

  /** Equal gate messages come from equal nonces and equal request hashes. */
  lemma GateMessageInjective(n1: Bytes, d1: Bytes, n2: Bytes, d2: Bytes)
    requires Fits([n1, d1]) && Fits([n2, d2]) && RustMessage(n1, d1) == RustMessage(n2, d2)
    ensures n1 == n2 && d1 == d2
  {
    var k := |GATE_DOMAIN|;
    assert RustMessage(n1, d1)[k..] == Frames([n1, d1]);
    assert RustMessage(n2, d2)[k..] == Frames([n2, d2]);
    FramesInjective([n1, d1], [n2, d2]);
    assert [n1, d1][0] == [n2, d2][0] && [n1, d1][1] == [n2, d2][1];
  }

  /** The domain tags separate the two uses of the shell secret. */
  lemma GateIsNeverRelay(nonce: Bytes, digest: Bytes, window: Bytes)
    ensures RustMessage(nonce, digest) != RelayMessage(window)
  {
    assert RustMessage(nonce, digest)[7] == GATE_DOMAIN[7] == 'g' as int;
    assert RelayMessage(window)[7] == RELAY_DOMAIN[7] == 'r' as int;
  }

  function Zeros(n: nat): (r: Bytes)
    ensures |r| == n && forall i :: 0 <= i < n ==> r[i] == 0
  {
    seq(n, i => 0)
  }

  lemma FrameOfZeros(n: nat)
    requires n % WIDTH == 0
    ensures Frame(Zeros(n)) == Zeros(4) + Zeros(n)
  {
    assert BigEndian32(0) == Zeros(4);
  }

  /** Without the length bound the truncating cast loses injectivity: one message for two pairs. */
  lemma TruncationCollides()
    ensures RustMessage(Zeros(WIDTH), []) == RustMessage([], Zeros(WIDTH)) && Zeros(WIDTH) != []
  {
    var z := Zeros(WIDTH);
    assert Zeros(0) == [];
    TwoFrames(z, []);
    TwoFrames([], z);
    FrameOfZeros(WIDTH);
    FrameOfZeros(0);
    hide Frame, Frames, Zeros;
    assert (Zeros(4) + z) + (Zeros(4) + []) == (Zeros(4) + []) + (Zeros(4) + z) by { ZerosCommute(); }
  }

  lemma ZerosCommute()
    ensures (Zeros(4) + Zeros(WIDTH)) + (Zeros(4) + []) == (Zeros(4) + []) + (Zeros(4) + Zeros(WIDTH))
  {
  }

  /** The message determines nonce and hash on all parts of length up to `bound`. */
  ghost predicate InjectiveUpTo(bound: nat) {
    forall n1, d1, n2, d2 | |n1| <= bound && |d1| <= bound && |n2| <= bound && |d2| <= bound ::
      RustMessage(n1, d1) == RustMessage(n2, d2) ==> n1 == n2 && d1 == d2
  }

  /** The sharp bound: 2^32 - 1 bytes. */
  lemma InjectiveExactly(bound: nat)
    ensures InjectiveUpTo(bound) <==> bound < WIDTH
  {
    if bound < WIDTH {
      forall n1, d1, n2, d2 | |n1| <= bound && |d1| <= bound && |n2| <= bound && |d2| <= bound && RustMessage(n1, d1) == RustMessage(n2, d2)
        ensures n1 == n2 && d1 == d2
      {
        GateMessageInjective(n1, d1, n2, d2);
      }
    } else {
      TruncationCollides();
      hide RustMessage;
      assert |Zeros(WIDTH)| <= bound;
    }
  }
}
