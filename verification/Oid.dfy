/** Object identifiers: written by oid of acme-server/src/server/crl.ts, read by derToOid of
    acme-server/src/server/signer.ts. Arcs are numbers here, not dotted text. */
module Oid {
  import opened Wrappers
  import opened Bytes
  import opened Der

  // ---- writing ----

  /** The bytes before the last: seven bits each, with the continuation bit. */
  function High(v: nat): Bytes {
    if v == 0 then [] else High(v / 128) + [0x80 + v % 128]
  }

  function Base128(v: nat): (r: Bytes)
    ensures r != []
  {
    High(ToUint32(v) / 128) + [v % 128]
  }

  function FurtherArcs(arcs: seq<nat>): Bytes {
    if arcs == [] then [] else FurtherArcs(arcs[..|arcs| - 1]) + Base128(arcs[|arcs| - 1])
  }

  /** The contents octets; Buffer.from keeps the low byte of the first. */
  function OidContents(arcs: seq<nat>): Bytes
    requires |arcs| >= 2
  {
    [(arcs[0] * 40 + arcs[1]) % 256] + FurtherArcs(arcs[2..])
  }

  function OidDer(arcs: seq<nat>): Bytes
    requires |arcs| >= 2
  {
    Tag(0x06, OidContents(arcs))
  }

  method EncodeArc(arc: nat) returns (stack: Bytes)
    ensures stack == Base128(arc)
  {
    var v: nat := arc;
    stack := [v % 128];
    v := ToUint32(v) / 128;
    while v > 0
      invariant Base128(arc) == High(v) + stack
    {
      assert High(v / 128) + [0x80 + v % 128] + stack == High(v / 128) + ([0x80 + v % 128] + stack);
      stack := [0x80 + v % 128] + stack;
      v := v / 128;
    }
  }

  method EncodeOid(arcs: seq<nat>) returns (der: Bytes)
    requires |arcs| >= 2
    ensures der == OidDer(arcs)
  {
    var out: Bytes := [(arcs[0] * 40 + arcs[1]) % 256];
    for i := 2 to |arcs|
      invariant out == [(arcs[0] * 40 + arcs[1]) % 256] + FurtherArcs(arcs[2..i])
    {
      var stack := EncodeArc(arcs[i]);
      assert arcs[2..i + 1][..i - 2] == arcs[2..i];
      out := out + stack;
    }
    assert arcs[2..|arcs|] == arcs[2..];
    der := Tag(0x06, out);
  }

  // ---- reading ----

  /** `(v << 7) | d`: the shift drops the seven highest bits and leaves the lowest zero. */
  function PushSeven(v: int, d: nat): (r: int)
    requires d < 128
    ensures -TWO_31 <= r < TWO_31
    ensures 0 <= v * 128 + d < TWO_31 ==> r == v * 128 + d
  {
    var m := (v % 0x200_0000) * 128;
    (if m < TWO_31 then m else m - TWO_32) + d
  }

  /** One arc from position i on, and the position after it. */
  function NextArc(b: Bytes, i: nat, v: int): (r: (int, nat))
    requires i <= |b|
    ensures i <= r.1 <= |b| && (i < |b| ==> i < r.1)
    decreases |b| - i
  {
    if i == |b| then (v, i)
    else
      var v' := PushSeven(v, b[i] % 128);
      if b[i] < 0x80 then (v', i + 1) else NextArc(b, i + 1, v')
  }

  function ArcsFrom(b: Bytes, i: nat): seq<int>
    requires i <= |b|
    decreases |b| - i
  {
    if i == |b| then [] else [NextArc(b, i, 0).0] + ArcsFrom(b, NextArc(b, i, 0).1)
  }

  /** None stands for the not-a-number text that an empty OID yields. */
  function DerToOid(b: Bytes): Option<seq<int>> {
    if b == [] then None else Some([b[0] / 40, b[0] % 40] + ArcsFrom(b, 1))
  }

  method DecodeOid(b: Bytes) returns (r: Option<seq<int>>)
    ensures r == DerToOid(b)
  {
    if b == [] { return None; }
    var parts: seq<int> := [b[0] / 40, b[0] % 40];
    var i := 1;
    while i < |b|
      invariant 1 <= i <= |b|
      invariant [b[0] / 40, b[0] % 40] + ArcsFrom(b, 1) == parts + ArcsFrom(b, i)
    {
      var v: int := 0;
      var start := i;
      while i < |b|
        invariant start <= i <= |b| && NextArc(b, start, 0) == NextArc(b, i, v)
        decreases |b| - i
      {
        var o := b[i];
        i := i + 1;
        v := PushSeven(v, o % 128);
        if o < 0x80 { break; }
      }
      assert NextArc(b, start, 0) == (v, i);
      assert parts + ([v] + ArcsFrom(b, i)) == (parts + [v]) + ArcsFrom(b, i);
      parts := parts + [v];
    }
    assert parts + [] == parts;
    r := Some(parts);
  }

  // ---- reading inverts writing ----

  /** Reading the high bytes of x on top of an accumulator of zero. */
  lemma {:induction false} HighRead(pre: Bytes, x: nat, rest: Bytes)
    requires x < 0x200_0000 && rest != []
    ensures var b := pre + High(x) + rest;
            NextArc(b, |pre|, 0) == NextArc(b, |pre| + |High(x)|, x)
  {
    if x > 0 {
      var top := [0x80 + x % 128];
      HighRead(pre, x / 128, top + rest);
      assert pre + High(x) + rest == pre + High(x / 128) + (top + rest);
    } else {
      assert pre + High(x) + rest == pre + rest;
    }
  }

  /** Whatever is on top, reading ends at the first byte without continuation bit. */
  lemma {:induction false} HighEnds(pre: Bytes, x: nat, d: Byte, post: Bytes, v: int)
    requires d < 128
    ensures var b := pre + High(x) + [d] + post;
            NextArc(b, |pre|, v).1 == |pre + High(x)| + 1 && NextArc(b, |pre|, v).0 < TWO_31
  {
    var b := pre + High(x) + [d] + post;
    HighContinues(x);
    Ends(b, |pre|, |pre + High(x)|, v);
  }

  lemma {:induction false} HighContinues(x: nat)
    ensures forall i :: 0 <= i < |High(x)| ==> High(x)[i] >= 0x80
  {
    if x > 0 { HighContinues(x / 128); }
  }

  lemma {:induction false} Ends(b: Bytes, i: nat, e: nat, v: int)
    requires i <= e < |b| && b[e] < 0x80 && forall k :: i <= k < e ==> b[k] >= 0x80
    ensures NextArc(b, i, v).1 == e + 1 && NextArc(b, i, v).0 < TWO_31
    decreases e - i
  {
    if i < e { Ends(b, i + 1, e, PushSeven(v, b[i] % 128)); }
  }

  /** One written arc is read back if and only if it is below 2^31; the reader always stops
      right behind it. */
  lemma {:induction false} ArcRoundTrip(pre: Bytes, v: nat, post: Bytes)
    ensures var b := pre + Base128(v) + post;
            && NextArc(b, |pre|, 0).1 == |pre| + |Base128(v)|
            && (NextArc(b, |pre|, 0).0 == v <==> v < TWO_31)
  {
    var x := ToUint32(v) / 128;
    var b := pre + Base128(v) + post;
    assert b == pre + High(x) + [v % 128] + post;
    HighEnds(pre, x, v % 128, post, 0);
    if v < TWO_31 {
      assert b == pre + High(x) + ([v % 128] + post);
      HighRead(pre, x, [v % 128] + post);
    }
  }

  ghost predicate Small(arcs: seq<nat>) {
    forall i :: 0 <= i < |arcs| ==> arcs[i] < TWO_31
  }

  lemma {:induction false} FurtherCons(arcs: seq<nat>)
    requires arcs != []
    ensures FurtherArcs(arcs) == Base128(arcs[0]) + FurtherArcs(arcs[1..])
  {
    hide Base128;
    var init, last := arcs[..|arcs| - 1], arcs[|arcs| - 1];
    if |arcs| == 1 {
      assert init == [] && arcs[1..] == [];
    } else {
      FurtherCons(init);
      var rest := arcs[1..];
      assert init[1..] == rest[..|rest| - 1] && rest[|rest| - 1] == last;
      assert FurtherArcs(rest) == FurtherArcs(init[1..]) + Base128(last);
    }
  }

  lemma {:induction false} ArcsRead(pre: Bytes, arcs: seq<nat>)
    ensures var read := ArcsFrom(pre + FurtherArcs(arcs), |pre|);
            |read| == |arcs| && (read == arcs <==> Small(arcs))
    decreases |arcs|
  {
    hide Base128, NextArc, Small;
    var b := pre + FurtherArcs(arcs);
    if arcs == [] {
      NoneSmall(arcs);
      assert b == pre;
    } else {
      var first := Base128(arcs[0]);
      FurtherCons(arcs);
      assert b == pre + first + FurtherArcs(arcs[1..]);
      ArcRoundTrip(pre, arcs[0], FurtherArcs(arcs[1..]));
      ArcsRead(pre + first, arcs[1..]);
      var rest := ArcsFrom(b, |pre + first|);
      assert ArcsFrom(b, |pre|) == [NextArc(b, |pre|, 0).0] + rest;
      assert arcs == [arcs[0]] + arcs[1..];
      SmallCons(arcs);
      SplitEqual(NextArc(b, |pre|, 0).0, rest, arcs);
    }
  }

  lemma {:induction false} NoneSmall(arcs: seq<nat>)
    requires arcs == []
    ensures Small(arcs)
  {}

  lemma {:induction false} SmallCons(arcs: seq<nat>)
    requires arcs != []
    ensures Small(arcs) <==> arcs[0] < TWO_31 && Small(arcs[1..])
  {
    if arcs[0] < TWO_31 && Small(arcs[1..]) {
      forall i | 0 <= i < |arcs| ensures arcs[i] < TWO_31 {
        if i > 0 { assert arcs[i] == arcs[1..][i - 1]; }
      }
    }
  }

  lemma {:induction false} SplitEqual(v: int, rest: seq<int>, arcs: seq<nat>)
    requires arcs != []
    ensures [v] + rest == arcs <==> v == arcs[0] && rest == arcs[1..]
  {
    if [v] + rest == arcs {
      assert ([v] + rest)[1..] == rest;
    }
  }

  /** The reader inverts the writer exactly on the identifiers whose second arc is below 40,
      whose first byte does not overflow and whose further arcs are below 2^31. */
  lemma {:induction false} OidRoundTrip(arcs: seq<nat>)
    requires |arcs| >= 2
    ensures DerToOid(OidContents(arcs)) == Some(arcs) <==>
            arcs[1] < 40 && arcs[0] * 40 + arcs[1] < 256 && Small(arcs[2..])
  {
    var f := (arcs[0] * 40 + arcs[1]) % 256;
    var b := OidContents(arcs);
    ArcsRead([f], arcs[2..]);
    var read := ArcsFrom(b, 1);
    FirstByte(arcs[0], arcs[1]);
    assert arcs == [arcs[0], arcs[1]] + arcs[2..];
    if [f / 40, f % 40] + read == arcs {
      assert ([f / 40, f % 40] + read)[2..] == read;
      assert ([f / 40, f % 40] + read)[0] == arcs[0] && ([f / 40, f % 40] + read)[1] == arcs[1];
    }
  }

  lemma {:induction false} FirstByte(a: nat, b: nat)
    ensures var f := (a * 40 + b) % 256; (f / 40 == a && f % 40 == b) <==> (b < 40 && a * 40 + b < 256)
  {}

  // ---- what any contents denote ----

  /** The number that base-128 digits denote, whatever their continuation bits. */
  function Base128Value(s: Bytes): nat {
    if s == [] then 0 else Base128Value(s[..|s| - 1]) * 128 + s[|s| - 1] % 128
  }

  lemma {:induction false} PushedSeven(v: int, d: nat) returns (lost: int)
    requires d < 128
    ensures v * 128 + d == PushSeven(v, d) + lost * TWO_32
  {
    var m := (v % 0x200_0000) * 128;
    lost := v / 0x200_0000 + if m < TWO_31 then 0 else 1;
  }

  /** An arc goes on to the first byte without continuation bit or to the end. */
  predicate ArcEnds(b: Bytes, i: nat, e: nat) {
    && i < e <= |b|
    && (forall k :: i <= k < e - 1 ==> b[k] >= 0x80)
    && (e < |b| ==> b[e - 1] < 0x80)
  }

  lemma {:induction false} ArcContinues(b: Bytes, i: nat, j: nat, e: nat, v: int, before: int) returns (lost: int)
    requires ArcEnds(b, i, e) && i <= j < e && Base128Value(b[i..j]) == v + before * TWO_32
    ensures NextArc(b, j, v).1 == e && -TWO_31 <= NextArc(b, j, v).0 < TWO_31
    ensures Base128Value(b[i..e]) == NextArc(b, j, v).0 + lost * TWO_32
    decreases e - j
  {
    var more := PushedSeven(v, b[j] % 128);
    var now := before * 128 + more;
    assert b[i..j + 1][..j - i] == b[i..j] && b[i..j + 1][j - i] == b[j];
    assert Base128Value(b[i..j + 1]) == PushSeven(v, b[j] % 128) + now * TWO_32;
    if j == e - 1 {
      lost := now;
    } else {
      lost := ArcContinues(b, i, j + 1, e, PushSeven(v, b[j] % 128), now);
    }
  }

  /** In any contents, each further arc is the number its digits denote, as a signed 32-bit
      integer. */
  lemma {:induction false} ArcDenotes(b: Bytes, i: nat, e: nat) returns (v: int, lost: int)
    requires ArcEnds(b, i, e)
    ensures ArcsFrom(b, i) == [v] + ArcsFrom(b, e)
    ensures -TWO_31 <= v < TWO_31 && Base128Value(b[i..e]) == v + lost * TWO_32
  {
    lost := ArcContinues(b, i, i, e, 0, 0);
    v := NextArc(b, i, 0).0;
  }
}
