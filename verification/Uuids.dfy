/** Uuids, as 128-bit numbers, and their canonical text: lower-case hex, grouped 8-4-4-4-12. */
module Uuids {
  import opened Strings

  const MAX_UUID: nat := 0xffff_ffff_ffff_ffff_ffff_ffff_ffff_ffff

  type Uuid = u: nat | u <= MAX_UUID

  predicate AllBytes(b: seq<nat>) { forall i :: 0 <= i < |b| ==> b[i] < 256 }

  /** The low n bytes of a number, the most significant first. */
  function Bytes(u: nat, n: nat): (b: seq<nat>)
    ensures |b| == n && AllBytes(b)
  {
    if n == 0 then [] else Bytes(u / 256, n - 1) + [u % 256]
  }

  function HexRun(b: seq<nat>): (s: string)
    requires AllBytes(b)
    ensures |s| == 2 * |b| && '|' !in s
  {
    if b == [] then "" else [HexDigit(b[0] / 16), HexDigit(b[0] % 16)] + HexRun(b[1..])
  }

  function HexOf(b: seq<nat>, lo: nat, hi: nat): (s: string)
    requires lo <= hi <= |b| && AllBytes(b)
    ensures |s| == 2 * (hi - lo) && '|' !in s
  {
    HexRun(b[lo..hi])
  }

  function Grouped(b: seq<nat>): (s: string)
    requires |b| == 16 && AllBytes(b)
    ensures |s| == 36 && '|' !in s && s[8] == s[13] == s[18] == s[23] == '-'
  {
    HexOf(b, 0, 4) + "-" + HexOf(b, 4, 6) + "-" + HexOf(b, 6, 8) + "-" + HexOf(b, 8, 10) + "-" + HexOf(b, 10, 16)
  }

  function String(u: Uuid): (s: string)
    ensures |s| == 36 && '|' !in s
  {
    Grouped(Bytes(u, 16))
  }

  // ---- different uuids have different texts ----

  lemma {:induction false} HexRunIsInjective(a: seq<nat>, b: seq<nat>)
    requires AllBytes(a) && AllBytes(b) && HexRun(a) == HexRun(b)
    ensures a == b
  {
    assert |a| == |b|;
    if a == [] {
    } else {
      var s, t := HexRun(a), HexRun(b);
      assert s[0] == t[0] && s[1] == t[1];
      assert s[2..] == HexRun(a[1..]) && t[2..] == HexRun(b[1..]);
      HexRunIsInjective(a[1..], b[1..]);
      assert a[0] / 16 == b[0] / 16 && a[0] % 16 == b[0] % 16;
      assert a == [a[0]] + a[1..] && b == [b[0]] + b[1..];
    }
  }

  lemma Pieces(b: seq<nat>)
    requires |b| == 16 && AllBytes(b)
    ensures var s := Grouped(b);
            && s[..8] == HexOf(b, 0, 4) && s[9..13] == HexOf(b, 4, 6) && s[14..18] == HexOf(b, 6, 8)
            && s[19..23] == HexOf(b, 8, 10) && s[24..] == HexOf(b, 10, 16)
  {
    hide HexOf;
  }

  lemma GroupedIsInjective(a: seq<nat>, b: seq<nat>)
    requires |a| == 16 && |b| == 16 && AllBytes(a) && AllBytes(b) && Grouped(a) == Grouped(b)
    ensures a == b
  {
    hide HexRun, HexOf, Grouped;
    Pieces(a);
    Pieces(b);
    HexOfIsInjective(a, b, 0, 4);
    HexOfIsInjective(a, b, 4, 6);
    HexOfIsInjective(a, b, 6, 8);
    HexOfIsInjective(a, b, 8, 10);
    HexOfIsInjective(a, b, 10, 16);
  }

  lemma HexOfIsInjective(a: seq<nat>, b: seq<nat>, lo: nat, hi: nat)
    requires lo <= hi <= |a| && hi <= |b| && AllBytes(a) && AllBytes(b) && HexOf(a, lo, hi) == HexOf(b, lo, hi)
    ensures forall i :: lo <= i < hi ==> a[i] == b[i]
  {
    hide HexRun;
    HexRunIsInjective(a[lo..hi], b[lo..hi]);
    forall i | lo <= i < hi
      ensures a[i] == b[i]
    {
      assert a[i] == a[lo..hi][i - lo] && b[i] == b[lo..hi][i - lo];
    }
  }

  /** 256 to the n. */
  function Span(n: nat): nat { if n == 0 then 1 else 256 * Span(n - 1) }

  lemma {:induction false} BytesAreInjective(u: nat, v: nat, n: nat)
    requires u < Span(n) && v < Span(n) && Bytes(u, n) == Bytes(v, n)
    ensures u == v
  {
    if n == 0 {
    } else {
      var a, b := Bytes(u / 256, n - 1), Bytes(v / 256, n - 1);
      assert a == Bytes(u, n)[..n - 1] && b == Bytes(v, n)[..n - 1];
      assert u % 256 == Bytes(u, n)[n - 1] == Bytes(v, n)[n - 1] == v % 256;
      BytesAreInjective(u / 256, v / 256, n - 1);
    }
  }

  lemma SpanOfUuids()
    ensures Span(16) == MAX_UUID + 1
  {
    assert Span(4) == 0x1_0000_0000;
    assert Span(8) == 0x1_0000_0000_0000_0000;
    assert Span(12) == 0x1_0000_0000_0000_0000_0000_0000;
  }

  lemma StringIsInjective(u: Uuid, v: Uuid)
    requires String(u) == String(v)
    ensures u == v
  {
    hide Grouped, Bytes, Span;
    GroupedIsInjective(Bytes(u, 16), Bytes(v, 16));
    SpanOfUuids();
    BytesAreInjective(u, v, 16);
  }
}
