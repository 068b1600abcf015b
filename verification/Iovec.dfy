/**
  Scatter/gather lists and the helpers that walk them (src/lib/pci_virtio_sock.c).

  A list is identified with the sequence of guest addresses it visits, `Addrs`.
  Guest memory is a total function from addresses to bytes; address translation
  is not part of the model.
 */
module Iovec {
  import opened Prelude

  datatype Iov = Iov(base: nat, len: nat)

  /** The addresses of one segment, in order. */
  function Span(base: nat, len: nat): (s: seq<nat>)
    ensures |s| == len
  {
    seq(len, i requires i >= 0 => base + i)
  }

  /** Every address a list visits, in order. */
  function Addrs(v: seq<Iov>): (s: seq<nat>) {
    if v == [] then [] else Span(v[0].base, v[0].len) + Addrs(v[1..])
  }

  /** The bytes a list denotes. */
  function Gather(mem: nat -> bv8, a: seq<nat>): (s: seq<bv8>)
    ensures |s| == |a|
  {
    seq(|a|, i requires 0 <= i < |a| => mem(a[i]))
  }

  lemma SpanSplit(base: nat, len: nat, k: nat)
    requires k <= len
    ensures Span(base, len)[..k] == Span(base, k)
    ensures Span(base, len)[k..] == Span(base + k, len - k)
  {}

  lemma {:induction false} AddrsConcat(v: seq<Iov>, w: seq<Iov>)
    ensures Addrs(v + w) == Addrs(v) + Addrs(w)
  {
    if v == [] {
      assert v + w == w;
    } else {
      assert (v + w)[1..] == v[1..] + w;
      AddrsConcat(v[1..], w);
    }
  }

  /** What is left of a list once `bytes` bytes have been pulled off its front. */
  function Pulled(v: seq<Iov>, bytes: nat): (r: seq<Iov>) {
    if bytes == 0 || v == [] then v
    else if v[0].len <= bytes then Pulled(v[1..], bytes - v[0].len)
    else [Iov(v[0].base + bytes, v[0].len - bytes)] + v[1..]
  }

  /** Pulling drops exactly the first `bytes` addresses, never one from the middle. */
  lemma {:induction false} PulledAddrs(v: seq<Iov>, bytes: nat)
    ensures Addrs(Pulled(v, bytes)) == Addrs(v)[Min(bytes, |Addrs(v)|)..]
    decreases |v|
  {
    if bytes > 0 && v != [] {
      var c := Min(bytes, v[0].len);
      PullStep(v, bytes, c);
      if c == v[0].len {
        PulledAddrs(v[1..], bytes - c);
      }
    }
  }

  /** A packet whose header length matches its chain and whose last segment is not empty. */
  predicate WellFormed(v: seq<Iov>, len: nat) {
    |Addrs(v)| == len && (v == [] || v[|v| - 1].len > 0)
  }

  /**
    The two assertions after `iovec_pull` in `buffer_write` (all bytes pulled, no segment
    left) hold exactly for well-formed packets; a trailing empty segment trips the second.
   */
  lemma {:induction false} PullExhaustsIff(v: seq<Iov>, len: nat)
    ensures (len <= |Addrs(v)| && Pulled(v, len) == []) <==> WellFormed(v, len)
    decreases |v|
  {
    if v == [] {
    } else if v[0].len <= len && len > 0 {
      PullExhaustsIff(v[1..], len - v[0].len);
      if |v| == 1 { assert v[1..] == []; }
    } else if len == 0 {
      if |v| > 0 && v[|v| - 1].len > 0 { LastAddrs(v); }
    }
  }

  /** Such a packet: one byte, and an empty segment after it. */
  lemma PullCanFail()
    ensures var v := [Iov(0, 1), Iov(0, 0)]; |Addrs(v)| == 1 && Pulled(v, 1) != []
  {
    var v, w := [Iov(0, 1), Iov(0, 0)], [Iov(0, 0)];
    assert v[1..] == w && w[1..] == [];
    assert Addrs(w) == Span(0, 0) + Addrs(w[1..]);
    assert Span(0, 0) == [] && Addrs([]) == [];
    assert Pulled(v, 1) == Pulled(w, 0) == w;
  }

  lemma {:induction false} LastAddrs(v: seq<Iov>)
    requires v != []
    ensures |Addrs(v)| >= v[|v| - 1].len
  {
    if |v| > 1 { LastAddrs(v[1..]); }
  }

  /** Removing fewer bytes than a well-formed packet holds leaves a well-formed packet. */
  lemma {:induction false} PullWellFormed(v: seq<Iov>, n: nat, len: nat)
    requires WellFormed(v, len) && n < len
    ensures WellFormed(Pulled(v, n), len - n)
    decreases |v|
  {
    if n > 0 && v != [] {
      if v[0].len <= n {
        PullWellFormed(v[1..], n - v[0].len, len - v[0].len);
      } else {
        var r := [Iov(v[0].base + n, v[0].len - n)] + v[1..];
        assert r[1..] == v[1..];
      }
    }
  }

  /** The list after the first `c` bytes of its first segment are gone. */
  function Advanced(v: seq<Iov>, c: nat): (r: seq<Iov>)
    requires v != [] && c <= v[0].len
  {
    if c == v[0].len then v[1..] else [Iov(v[0].base + c, v[0].len - c)] + v[1..]
  }

  lemma PullStep(v: seq<Iov>, n: nat, c: nat)
    requires v != [] && n > 0 && c == Min(n, v[0].len)
    ensures Pulled(v, n) == Pulled(Advanced(v, c), n - c)
    ensures c <= |Addrs(v)|
    ensures Addrs(v)[..c] == Span(v[0].base, c)
    ensures Addrs(Advanced(v, c)) == Addrs(v)[c..]
  {
    SpanSplit(v[0].base, v[0].len, c);
    if c < v[0].len {
      var r := Advanced(v, c);
      assert r[1..] == v[1..];
    }
  }

  lemma GatherMore(mem: nat -> bv8, a: seq<nat>, k: nat, c: nat)
    requires k + c <= |a|
    ensures Gather(mem, a[..k + c]) == Gather(mem, a[..k]) + Gather(mem, a[k..][..c])
  {}

  /**
    `iovec_pull`: take up to `bytes` bytes off the front of the list. `out` is what the
    source copies to its destination (and drops when that is null), `rest` the advanced list.
   */
  method Pull(mem: nat -> bv8, v: seq<Iov>, bytes: nat) returns (rest: seq<Iov>, out: seq<bv8>)
    ensures rest == Pulled(v, bytes)
    ensures out == Gather(mem, Addrs(v)[..Min(bytes, |Addrs(v)|)])
  {
    ghost var a := Addrs(v);
    rest, out := v, [];
    while |out| < bytes && rest != []
      invariant |out| <= bytes && |out| <= |a|
      invariant Pulled(rest, bytes - |out|) == Pulled(v, bytes)
      invariant Addrs(rest) == a[|out|..]
      invariant out == Gather(mem, a[..|out|])
      decreases |rest|, bytes - |out|
    {
      var seg, left := rest[0], bytes - |out|;
      var c := if left < seg.len then left else seg.len;
      PullStep(rest, left, c);
      GatherMore(mem, a, |out|, c);
      assert a[|out|..][c..] == a[|out| + c..];
      rest := Advanced(rest, c);
      out := out + Gather(mem, Span(seg.base, c));
    }
  }

  /** `iovec_clip`: keep only the first `bytes` bytes of the list. */
  method Clip(v: seq<Iov>, bytes: nat) returns (r: seq<Iov>, ret: nat)
    ensures ret == Min(bytes, |Addrs(v)|)
    ensures Addrs(r) == Addrs(v)[..ret]
  {
    ret, r := 0, [];
    var i := 0;
    while i < |v| && ret < bytes
      invariant 0 <= i <= |v|
      invariant ret <= bytes && ret == |Addrs(r)|
      invariant ret < bytes ==> r == v[..i]
      invariant ret <= |Addrs(v)| && Addrs(r) == Addrs(v)[..ret]
    {
      var len := if bytes - ret < v[i].len then bytes - ret else v[i].len;
      ClipStep(v, i, len);
      r := r + [Iov(v[i].base, len)];
      ret := ret + len;
      i := i + 1;
    }
    assert v[..|v|] == v;
  }

  lemma ClipStep(v: seq<Iov>, i: nat, len: nat)
    requires i < |v| && len <= v[i].len
    ensures |Addrs(v[..i])| + len <= |Addrs(v)|
    ensures Addrs(v[..i] + [Iov(v[i].base, len)]) == Addrs(v)[..|Addrs(v[..i])| + len]
    ensures len == v[i].len ==> v[..i] + [Iov(v[i].base, len)] == v[..i + 1]
  {
    var seg, p, q := Iov(v[i].base, len), Addrs(v[..i]), Addrs(v[i + 1..]);
    AddrsConcat(v[..i], [seg]);
    assert v == v[..i] + v[i..];
    AddrsConcat(v[..i], v[i..]);
    SpanSplit(v[i].base, v[i].len, len);
    assert Addrs(v) == p + (Span(v[i].base, v[i].len) + q);
    PrefixOf(p, Span(v[i].base, v[i].len), q, len);
  }

  lemma PrefixOf(p: seq<nat>, s: seq<nat>, q: seq<nat>, len: nat)
    requires len <= |s|
    ensures (p + (s + q))[..|p| + len] == p + s[..len]
  {
  }
}
