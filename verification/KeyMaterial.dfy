/** Key material from a key exchange (section 7.2 of RFC 4253). */
module KeyMaterial {
  import opened Arithmetic
  import opened Bytes
  import opened Sequences

  /** The outcome of an exchange, with any hash function of fixed output size. `k` is already encoded. */
  datatype KexResult = KexResult(hash: seq<byte> -> seq<byte>, size: nat, k: seq<byte>, h: seq<byte>, sessionID: seq<byte>)
  {
    ghost predicate Valid()
    {
      size > 0 && forall data: seq<byte> :: |hash(data)| == size
    }
  }

  /** What is hashed for the next digest, given those so far. */
  function HashInput(e: KexResult, tag: byte, soFar: seq<byte>): seq<byte>
  {
    e.k + e.h + if soFar == [] then [tag] + e.sessionID else soFar
  }

  /** K1 || K2 || ... || Kn. */
  function Digests(e: KexResult, tag: byte, n: nat): (r: seq<byte>)
    requires e.Valid()
    ensures |r| == n * e.size
  {
    if n == 0 then []
    else
      var prev := Digests(e, tag, n - 1);
      prev + e.hash(HashInput(e, tag, prev))
  }

  lemma {:induction false} DigestsGrow(e: KexResult, tag: byte, n: nat, m: nat)
    requires e.Valid() && n <= m
    ensures Digests(e, tag, n) <= Digests(e, tag, m)
  {
    hide HashInput;
    if n < m {
      DigestsGrow(e, tag, n, m - 1);
    }
  }

  /** The first `n` octets of the digests. */
  function Material(e: KexResult, tag: byte, n: nat): (r: seq<byte>)
    requires e.Valid()
    ensures |r| == n
  {
    RoundUp(n, e.size, 0);
    Digests(e, tag, (n + e.size - 1) / e.size)[..n]
  }

  /** However many more digests are made, the material is their beginning. */
  lemma MaterialOfMore(e: KexResult, tag: byte, n: nat, m: nat)
    requires e.Valid() && n <= m * e.size
    ensures Material(e, tag, n) == Digests(e, tag, m)[..n]
  {
    hide Digests;
    var k := (n + e.size - 1) / e.size;
    RoundUp(n, e.size, 0);
    if k <= m {
      DigestsGrow(e, tag, k, m);
    } else {
      DigestsGrow(e, tag, m, k);
    }
  }

  /** A longer key begins with the shorter one. */
  lemma MaterialPrefix(e: KexResult, tag: byte, n: nat, m: nat)
    requires e.Valid() && n <= m
    ensures Material(e, tag, n) == Material(e, tag, m)[..n]
  {
    hide Digests;
    var k := (m + e.size - 1) / e.size;
    RoundUp(m, e.size, 0);
    MaterialOfMore(e, tag, n, k);
  }

  /** Section 7.2 of RFC 4253: K1 = HASH(K || H || tag || session), K(n+1) = HASH(K || H || K1 || ... || Kn). */
  lemma DigestOctets(e: KexResult, tag: byte, n: nat)
    requires e.Valid()
    ensures Digests(e, tag, 1) == e.hash(e.k + e.h + [tag] + e.sessionID)
    ensures n >= 1 ==> Digests(e, tag, n + 1) == Digests(e, tag, n) + e.hash(e.k + e.h + Digests(e, tag, n))
  {
    assert Digests(e, tag, 0) == [] && [] + e.hash(HashInput(e, tag, [])) == e.hash(HashInput(e, tag, []));
    assert e.k + e.h + ([tag] + e.sessionID) == e.k + e.h + [tag] + e.sessionID;
    if n >= 1 {
      assert n * e.size >= e.size;
    }
  }

  /** Two tags never hash the same first input. */
  lemma TagsSeparate(e: KexResult, tag: byte, tag': byte)
    ensures HashInput(e, tag, []) == HashInput(e, tag', []) <==> tag == tag'
  {
    var at := |e.k| + |e.h|;
    assert HashInput(e, tag, [])[at] == tag && HashInput(e, tag', [])[at] == tag';
  }

  lemma NextDigest(e: KexResult, tag: byte, i: nat, n: nat)
    requires e.Valid() && n <= e.size
    ensures var soFar := Digests(e, tag, i);
            var digest := e.hash(HashInput(e, tag, soFar));
            && |soFar| == i * e.size && |digest| == e.size
            && (i + 1) * e.size == i * e.size + e.size
            && Digests(e, tag, i + 1) == soFar + digest
            && Digests(e, tag, i + 1)[..i * e.size + n] == soFar + digest[..n]
  {
    hide HashInput;
    var soFar := Digests(e, tag, i);
    TakeConcat(soFar, e.hash(HashInput(e, tag, soFar)), n);
    assert (i + 1) * e.size == i * e.size + e.size;
  }

  /** Fills `out` one digest at a time; the last one may be cut short. */
  method GenerateKeyMaterial(out: array<byte>, tag: byte, e: KexResult)
    requires e.Valid()
    modifies out
    ensures out[..] == Material(e, tag, out.Length)
  {
    hide Digests, HashInput, Material;
    var soFar: seq<byte> := [];
    var pos := 0;
    ghost var i := 0;
    NoDigests(e, tag);
    while pos < out.Length
      invariant pos <= out.Length && pos <= i * e.size
      invariant pos < out.Length ==> pos == i * e.size && soFar == Digests(e, tag, i)
      invariant out[..pos] == Digests(e, tag, i)[..pos]
    {
      var digest := e.hash(HashInput(e, tag, soFar));
      var n := if |digest| < out.Length - pos then |digest| else out.Length - pos;
      NextDigest(e, tag, i, n);
      CopyDigest(out, pos, digest, n);
      i := i + 1;
      pos := pos + n;
      if pos < out.Length {
        soFar := soFar + digest;
      }
    }
    MaterialOfMore(e, tag, out.Length, i);
    assert out[..] == out[..pos];
  }

  lemma NoDigests(e: KexResult, tag: byte)
    requires e.Valid()
    ensures Digests(e, tag, 0) == []
  {
  }

  method CopyDigest(out: array<byte>, pos: nat, digest: seq<byte>, n: nat)
    requires n <= |digest| && pos + n <= out.Length
    modifies out
    ensures out[..pos + n] == old(out[..pos]) + digest[..n]
  {
    for j := 0 to n
      invariant out[..pos] == old(out[..pos])
      invariant out[pos..pos + j] == digest[..j]
    {
      out[pos + j] := digest[j];
    }
    assert out[..pos + n] == out[..pos] + out[pos..pos + n];
  }
}
