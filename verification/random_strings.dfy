/** Drawing a random string over an alphabet from random bytes, rejecting the bytes that would favour some characters. */
module RandomStrings {
  import opened Common
  import opened Bytes

  function UnbiasedLimit(n: nat): nat
    requires 0 < n <= 256
  {
    256 - 256 % n
  }

  /** The accepted bytes that yield character number r. */
  ghost function Hits(n: nat, r: nat, limit: nat): set<int>
    requires 0 < n
  {
    set b: int | 0 <= b < limit && b % n == r
  }

  lemma {:induction false} HitsInMultiple(n: nat, r: nat, k: nat)
    requires 0 < n && r < n
    ensures |Hits(n, r, k * n)| == k
  {
    if k == 0 {
      assert Hits(n, r, 0) == {};
    } else {
      HitsInMultiple(n, r, k - 1);
      OneMore(n, r, k - 1);
    }
  }

  lemma OneMore(n: nat, r: nat, k: nat)
    requires 0 < n && r < n
    ensures Hits(n, r, (k + 1) * n) == Hits(n, r, k * n) + {k * n + r} && k * n + r !in Hits(n, r, k * n)
  {
    assert (k + 1) * n == k * n + n;
    forall b: int | k * n <= b < k * n + n
      ensures b % n == b - k * n
    {
      Remainder(b - k * n, n, k);
    }
  }

  lemma AtLeastOnce(a: int, n: nat)
    requires a >= 1
    ensures a * n >= n
  {
  }

  lemma Remainder(d: int, n: nat, k: nat)
    requires 0 <= d < n
    ensures (k * n + d) % n == d
  {
    var q, m := (k * n + d) / n, (k * n + d) % n;
    assert q * n + m == k * n + d;
    assert (k - q) * n == k * n - q * n && (q - k) * n == q * n - k * n;
    if q < k {
      AtLeastOnce(k - q, n);
    } else if k < q {
      AtLeastOnce(q - k, n);
    }
  }

  /** Among the accepted bytes every character of the alphabet has equally many, and no larger limit would do. */
  lemma EveryCharacterEquallyLikely(n: nat, r: nat)
    requires 2 <= n <= 256 && r < n
    ensures |Hits(n, r, UnbiasedLimit(n))| * n == UnbiasedLimit(n)
    ensures 256 - n < UnbiasedLimit(n) <= 256
  {
    var k := 256 / n;
    assert 256 == k * n + 256 % n;
    HitsInMultiple(n, r, k);
  }

  /** The characters of the accepted bytes, in order. */
  function Drawn(alphabet: string, bytes: seq<Byte>): string
    requires 0 < |alphabet| <= 256
  {
    if bytes == [] then ""
    else
      var last := bytes[|bytes| - 1];
      Drawn(alphabet, bytes[..|bytes| - 1])
      + if last >= UnbiasedLimit(|alphabet|) then "" else [alphabet[last % |alphabet|]]
  }

  predicate ValidOptions(alphabet: string, length: int) {
    && 2 <= |alphabet| <= 256 && 0 < length <= 1_048_576
    && forall i, j :: 0 <= i < j < |alphabet| ==> alphabet[i] != alphabet[j]
  }

  /** One batch: characters are appended until the string is long enough. */
  method AppendBatch(alphabet: string, length: nat, output: string, bytes: seq<Byte>) returns (longer: string)
    requires 0 < |alphabet| <= 256 && |output| < length
    ensures |longer| <= length
    ensures longer <= output + Drawn(alphabet, bytes)
    ensures |longer| < length ==> longer == output + Drawn(alphabet, bytes)
  {
    var limit := UnbiasedLimit(|alphabet|);
    longer := output;
    var i := 0;
    assert bytes[..0] == [];
    while i < |bytes|
      invariant 0 <= i <= |bytes| && |longer| < length
      invariant longer == output + Drawn(alphabet, bytes[..i])
    {
      DrawnPrefix(alphabet, bytes, i + 1);
      assert bytes[..i + 1][..i] == bytes[..i];
      if bytes[i] < limit {
        longer := longer + [alphabet[bytes[i] % |alphabet|]];
        if |longer| == length {
          return;
        }
      }
      i := i + 1;
    }
    assert bytes[..i] == bytes;
  }

  lemma {:induction false} DrawnPrefix(alphabet: string, bytes: seq<Byte>, n: nat)
    requires 0 < |alphabet| <= 256 && n <= |bytes|
    ensures Drawn(alphabet, bytes[..n]) <= Drawn(alphabet, bytes)
    decreases |bytes|
  {
    if n < |bytes| {
      var shorter := bytes[..|bytes| - 1];
      assert shorter[..n] == bytes[..n];
      DrawnPrefix(alphabet, shorter, n);
    } else {
      assert bytes[..n] == bytes;
    }
  }

  lemma {:induction false} DrawnAppend(alphabet: string, a: seq<Byte>, b: seq<Byte>)
    requires 0 < |alphabet| <= 256
    ensures Drawn(alphabet, a + b) == Drawn(alphabet, a) + Drawn(alphabet, b)
  {
    if b == [] {
      assert a + b == a;
    } else {
      var shorter := b[..|b| - 1];
      assert (a + b)[..|a + b| - 1] == a + shorter;
      DrawnAppend(alphabet, a, shorter);
    }
  }

  function Flat(batches: seq<seq<Byte>>): seq<Byte> {
    if batches == [] then [] else Flat(batches[..|batches| - 1]) + batches[|batches| - 1]
  }

  lemma {:induction false} FlatPrefix(alphabet: string, batches: seq<seq<Byte>>, n: nat)
    requires 0 < |alphabet| <= 256 && n <= |batches|
    ensures Drawn(alphabet, Flat(batches[..n])) <= Drawn(alphabet, Flat(batches))
    decreases |batches|
  {
    if n < |batches| {
      var shorter := batches[..|batches| - 1];
      assert shorter[..n] == batches[..n];
      FlatPrefix(alphabet, shorter, n);
      DrawnAppend(alphabet, Flat(shorter), batches[|batches| - 1]);
    } else {
      assert batches[..n] == batches;
    }
  }

  /** The string is the first `length` characters drawn from the random bytes, however they were batched. The source
      draws batches for as long as it needs; here they are given, and the result is absent when they do not suffice. */
  method RandomSecretString(alphabet: string, length: nat, batches: seq<seq<Byte>>) returns (output: Option<string>)
    requires ValidOptions(alphabet, length)
    ensures output.Some? <==> |Drawn(alphabet, Flat(batches))| >= length
    ensures output.Some? ==> |output.value| == length && output.value <= Drawn(alphabet, Flat(batches))
  {
    var text := "";
    var i := 0;
    assert batches[..0] == [];
    while |text| < length && i < |batches|
      invariant 0 <= i <= |batches| && |text| <= length
      invariant text <= Drawn(alphabet, Flat(batches[..i]))
      invariant |text| < length ==> text == Drawn(alphabet, Flat(batches[..i]))
      decreases |batches| - i
    {
      assert batches[..i + 1][..i] == batches[..i];
      DrawnAppend(alphabet, Flat(batches[..i]), batches[i]);
      text := AppendBatch(alphabet, length, text, batches[i]);
      i := i + 1;
    }
    FlatPrefix(alphabet, batches, i);
    if |text| < length {
      assert batches[..i] == batches;
      return None;
    }
    return Some(text);
  }
}
