/** The fixed-width ES256 signature of `internal/apns/client.go` (section 3.4 of RFC 7518). */
module Jws {

  import opened KeyCodec

  const HALF := 32

  function Power(k: nat): nat {
    if k == 0 then 1 else 256 * Power(k - 1)
  }

  /** `big.Int.Bytes`: the shortest big-endian form, empty for zero. */
  function Bytes(n: nat): seq<byte> {
    if n == 0 then [] else Bytes(n / 256) + [n % 256]
  }

  /** The number a big-endian byte string denotes. */
  function Value(s: seq<byte>): nat {
    if s == [] then 0 else 256 * Value(s[..|s| - 1]) + s[|s| - 1]
  }

  /** The last byte counts once, the one before it 256 times, and so on. */
  lemma ValueMeaning(s: seq<byte>, x: byte)
    ensures Value([]) == 0 && Value(s + [x]) == 256 * Value(s) + x
  {
    assert (s + [x])[..|s|] == s;
  }

  lemma {:induction false} ValueOfBytes(n: nat)
    ensures Value(Bytes(n)) == n
  {
    if n > 0 {
      ValueOfBytes(n / 256);
      assert Bytes(n)[..|Bytes(n)| - 1] == Bytes(n / 256);
    }
  }

  /** A number fits k bytes exactly if it is below 256^k. */
  lemma {:induction false} BytesFit(n: nat, k: nat)
    ensures |Bytes(n)| <= k <==> n < Power(k)
    decreases k
  {
    if n > 0 && k > 0 {
      BytesFit(n / 256, k - 1);
    } else if k > 0 {
      PowerPositive(k);
    }
  }

  lemma {:induction false} PowerPositive(k: nat)
    ensures Power(k) > 0
  {
    if k > 0 {
      PowerPositive(k - 1);
    }
  }

  function Zeros(k: nat): (r: seq<byte>)
    ensures |r| == k
  {
    if k == 0 then [] else Zeros(k - 1) + [0]
  }

  /** Leading zeros do not change the number. */
  lemma {:induction false} PaddedValue(k: nat, s: seq<byte>)
    ensures Value(Zeros(k) + s) == Value(s)
    decreases |s|, k
  {
    var p := Zeros(k) + s;
    if s != [] {
      PaddedValue(k, s[..|s| - 1]);
      assert p[..|p| - 1] == Zeros(k) + s[..|s| - 1];
    } else if k > 0 {
      PaddedValue(k - 1, []);
      assert p[..|p| - 1] == Zeros(k - 1) + [];
    }
  }

  lemma LastDigit(p: nat, x: byte, q: nat, y: byte)
    requires 256 * p + x == 256 * q + y
    ensures p == q && x == y
  {
    assert x == y + 256 * (q - p);
  }

  /** Fixed-width strings with the same number are the same string. */
  lemma {:induction false} ValueInjective(a: seq<byte>, b: seq<byte>)
    requires |a| == |b| && Value(a) == Value(b)
    ensures a == b
  {
    if a != [] {
      var n := |a| - 1;
      assert Value(a) == 256 * Value(a[..n]) + a[n];
      assert Value(b) == 256 * Value(b[..n]) + b[n];
      LastDigit(Value(a[..n]), a[n], Value(b[..n]), b[n]);
      ValueInjective(a[..n], b[..n]);
      assert a == a[..n] + [a[n]] && b == b[..n] + [b[n]];
    }
  }

  /** Go's `copy` onto a zeroed half, right-aligned. */
  method CopyRight(sig: array<byte>, end: nat, source: seq<byte>)
    requires |source| <= HALF <= end <= sig.Length
    requires forall i :: end - HALF <= i < end ==> sig[i] == 0
    modifies sig
    ensures sig[end - HALF..end] == Zeros(HALF - |source|) + source
    ensures forall i :: 0 <= i < sig.Length && !(end - HALF <= i < end) ==> sig[i] == old(sig[i])
  {
    var start := end - |source|;
    for i := 0 to |source|
      invariant forall k :: 0 <= k < sig.Length && !(start <= k < start + i) ==> sig[k] == old(sig[k])
      invariant forall k :: 0 <= k < i ==> sig[start + k] == source[k]
    {
      sig[start + i] := source[i];
    }
    ZerosAreZero(HALF - |source|);
    assert sig[start..end] == source;
    assert sig[end - HALF..start] == Zeros(HALF - |source|);
    assert sig[end - HALF..end] == sig[end - HALF..start] + sig[start..end];
  }

  lemma {:induction false} ZerosAreZero(k: nat)
    ensures forall i :: 0 <= i < k ==> Zeros(k)[i] == 0
  {
    if k > 0 {
      ZerosAreZero(k - 1);
    }
  }

  /** r and s below 2^256 keep both slice offsets in range, and the two halves decode to them. */
  method PackSignature(r: nat, s: nat) returns (sig: array<byte>)
    requires r < Power(HALF) && s < Power(HALF)
    ensures fresh(sig) && sig.Length == 64
    ensures Value(sig[..32]) == r && Value(sig[32..]) == s
  {
    hide Power, Zeros, Value, Bytes;
    sig := new byte[2 * HALF](_ => 0);
    var rBytes, sBytes := Bytes(r), Bytes(s);
    BytesFit(r, HALF);
    BytesFit(s, HALF);
    CopyRight(sig, HALF, rBytes);
    ghost var first := sig[..HALF];
    CopyRight(sig, 2 * HALF, sBytes);
    assert sig[..HALF] == first;
    assert first == Zeros(HALF - |rBytes|) + rBytes;
    assert sig[HALF..] == sig[HALF..2 * HALF];
    PaddedValue(HALF - |rBytes|, rBytes);
    PaddedValue(HALF - |sBytes|, sBytes);
    ValueOfBytes(r);
    ValueOfBytes(s);
  }

  /** The packing as a value. */
  function Packed(r: nat, s: nat): seq<byte>
    requires |Bytes(r)| <= HALF && |Bytes(s)| <= HALF
  {
    Zeros(HALF - |Bytes(r)|) + Bytes(r) + (Zeros(HALF - |Bytes(s)|) + Bytes(s))
  }

  /** Packing is possible exactly below 2^256, and is then undone by reading the two halves; so it loses nothing. */
  lemma PackingRoundTrip(r: nat, s: nat)
    ensures |Bytes(r)| <= HALF && |Bytes(s)| <= HALF <==> r < Power(32) && s < Power(32)
    ensures r < Power(32) && s < Power(32) ==>
              |Packed(r, s)| == 64 && Value(Packed(r, s)[..32]) == r && Value(Packed(r, s)[32..]) == s
  {
    hide Power, Zeros, Value, Bytes;
    BytesFit(r, HALF);
    BytesFit(s, HALF);
    if r < Power(HALF) && s < Power(HALF) {
      var left, right := Zeros(HALF - |Bytes(r)|) + Bytes(r), Zeros(HALF - |Bytes(s)|) + Bytes(s);
      assert Packed(r, s)[..HALF] == left && Packed(r, s)[HALF..] == right;
      PaddedValue(HALF - |Bytes(r)|, Bytes(r));
      PaddedValue(HALF - |Bytes(s)|, Bytes(s));
      ValueOfBytes(r);
      ValueOfBytes(s);
    }
  }

  lemma {:induction false} ValueBound(s: seq<byte>)
    ensures Value(s) < Power(|s|)
  {
    if s != [] {
      ValueBound(s[..|s| - 1]);
    }
  }

  /** No other 64 bytes read back as r and s. */
  lemma PackedIsUnique(sig: seq<byte>)
    requires |sig| == 2 * HALF
    ensures var r, s := Value(sig[..HALF]), Value(sig[HALF..]);
            |Bytes(r)| <= HALF && |Bytes(s)| <= HALF && sig == Packed(r, s)
  {
    hide Power, Value, Bytes, Packed;
    var r, s := Value(sig[..HALF]), Value(sig[HALF..]);
    ValueBound(sig[..HALF]);
    ValueBound(sig[HALF..]);
    PackingRoundTrip(r, s);
    ValueInjective(sig[..HALF], Packed(r, s)[..HALF]);
    ValueInjective(sig[HALF..], Packed(r, s)[HALF..]);
    assert sig == sig[..HALF] + sig[HALF..];
    assert Packed(r, s) == Packed(r, s)[..HALF] + Packed(r, s)[HALF..];
  }
}
