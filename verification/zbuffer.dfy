/** The depth buffer: one depth per pixel, initialised to negative infinity,
    and the depth test that decides whether a fragment overwrites a pixel.
    A larger depth is nearer the observer. */
module DepthBuffer {
  import opened Wrappers

  /** A stored depth: negative infinity (nothing drawn yet) or a finite
      value. */
  datatype Depth = NegInf | D(z: real)

  /** `a` is no nearer than `b`: the order of the extended reals. */
  predicate Le(a: Depth, b: Depth)
  {
    a.NegInf? || (b.D? && a.z <= b.z)
  }

  /** The depth test: a fragment at depth `d` is drawn over a pixel whose
      stored depth is `stored` only if the stored depth is strictly less. */
  predicate Nearer(d: real, stored: Depth)
  {
    stored.NegInf? || stored.z < d
  }

  lemma LeAntisymmetric(a: Depth, b: Depth)
    requires Le(a, b) && Le(b, a)
    ensures a == b
  {
  }

  /** What the rasterizer produces for one triangle at one pixel: the
      interpolated depth and the shaded ARGB colour. */
  datatype Fragment = Fragment(depth: real, colour: int)

  /** One pixel's state: its z-buffer entry and its image colour. */
  datatype Pixel = Pixel(depth: Depth, colour: int)

  /** A pixel before any triangle is drawn: infinitely far, and transparent
      black (ARGB 0), as a fresh image is. */
  const Blank := Pixel(NegInf, 0)

  /** The depth test at one pixel for a triangle that produced `f` there
      (None when the pixel is outside the triangle). */
  function Step(p: Pixel, f: Option<Fragment>): (q: Pixel)
    ensures q.depth != p.depth <==> f.Some? && Nearer(f.value.depth, p.depth)
    ensures q.depth != p.depth ==> q == Pixel(D(f.value.depth), f.value.colour)
    ensures q.depth == p.depth ==> q == p
    ensures Le(p.depth, q.depth)
  {
    match f
    case Some(g) => if Nearer(g.depth, p.depth) then Pixel(D(g.depth), g.colour) else p
    case None => p
  }

  /** The pixel after the fragments `fs` have gone through the depth test in
      order, starting from `p`. */
  function Resolve(p: Pixel, fs: seq<Option<Fragment>>): (r: Pixel)
    ensures Le(p.depth, r.depth)
    ensures r == p || exists i :: 0 <= i < |fs| && fs[i].Some? && r == Pixel(D(fs[i].value.depth), fs[i].value.colour)
  {
    if |fs| == 0 then p else Step(Resolve(p, fs[..|fs| - 1]), fs[|fs| - 1])
  }

  /** Testing one more fragment is one more step of the depth test. */
  lemma ResolveSnoc(p: Pixel, fs: seq<Option<Fragment>>, f: Option<Fragment>)
    ensures Resolve(p, fs + [f]) == Step(Resolve(p, fs), f)
  {
    assert (fs + [f])[..|fs|] == fs;
  }

  /** The depth of `f`, negative infinity for no fragment. */
  function DepthOf(f: Option<Fragment>): Depth
  {
    if f.Some? then D(f.value.depth) else NegInf
  }

  /** The stored depth only ever grows as fragments are tested. */
  lemma {:induction false} ResolveMonotone(p: Pixel, fs: seq<Option<Fragment>>, n: nat)
    requires n <= |fs|
    ensures Le(Resolve(p, fs[..n]).depth, Resolve(p, fs).depth)
    decreases |fs|
  {
    if n < |fs| {
      var prefix := fs[..|fs| - 1];
      assert prefix[..n] == fs[..n];
      ResolveMonotone(p, prefix, n);
    } else {
      assert fs[..n] == fs;
    }
  }

  /** The resolved depth is the maximum of the starting depth and the depths
      of all fragments: an upper bound of them all, attained by one of them. */
  lemma {:induction false} ResolveIsMaximum(p: Pixel, fs: seq<Option<Fragment>>)
    ensures Le(p.depth, Resolve(p, fs).depth)
    ensures forall i :: 0 <= i < |fs| ==> Le(DepthOf(fs[i]), Resolve(p, fs).depth)
    ensures Resolve(p, fs).depth == p.depth
         || exists i :: 0 <= i < |fs| && Resolve(p, fs).depth == DepthOf(fs[i])
    decreases |fs|
  {
    if |fs| > 0 {
      var prefix := fs[..|fs| - 1];
      ResolveIsMaximum(p, prefix);
      var r := Resolve(p, fs);
      assert forall i :: 0 <= i < |prefix| ==> fs[i] == prefix[i];
      assert Le(DepthOf(fs[|fs| - 1]), r.depth);
      if r.depth != Resolve(p, prefix).depth {
        assert r.depth == DepthOf(fs[|fs| - 1]);
      } else if r.depth != p.depth {
        var i :| 0 <= i < |prefix| && Resolve(p, prefix).depth == DepthOf(prefix[i]);
        assert r.depth == DepthOf(fs[i]);
      }
    }
  }

  /** The colour left at a pixel comes from the earliest fragment of maximal
      depth, provided that depth beats the starting one; otherwise the pixel
      is untouched. Later fragments at the same depth do not overwrite it. */
  lemma {:induction false} ResolveFirstWinner(p: Pixel, fs: seq<Option<Fragment>>)
    ensures Resolve(p, fs) == p
         || exists i :: 0 <= i < |fs| && fs[i].Some?
              && Nearer(fs[i].value.depth, p.depth)
              && Resolve(p, fs) == Pixel(D(fs[i].value.depth), fs[i].value.colour)
              && (forall j :: 0 <= j < i ==> !Le(DepthOf(fs[i]), DepthOf(fs[j])))
              && (forall j :: i < j < |fs| ==> Le(DepthOf(fs[j]), DepthOf(fs[i])))
    decreases |fs|
  {
    ResolveIsMaximum(p, fs);
    if |fs| > 0 {
      var prefix := fs[..|fs| - 1];
      var last := fs[|fs| - 1];
      ResolveFirstWinner(p, prefix);
      ResolveIsMaximum(p, prefix);
      var q := Resolve(p, prefix);
      assert forall i :: 0 <= i < |prefix| ==> fs[i] == prefix[i];
      if Resolve(p, fs) != q {
        var i := |fs| - 1;
        assert Nearer(last.value.depth, q.depth);
        assert Nearer(last.value.depth, p.depth);
        forall j | 0 <= j < i
          ensures !Le(DepthOf(fs[i]), DepthOf(fs[j]))
        {
          assert Le(DepthOf(prefix[j]), q.depth);
        }
      }
    }
  }

  /** Triangle order does not matter for depth: two fragment sequences with
      the same elements, in any order and with any repetitions, leave the
      same depth at the pixel. */
  lemma ResolveDepthOrderFree(p: Pixel, fs: seq<Option<Fragment>>, gs: seq<Option<Fragment>>)
    requires forall f :: f in fs <==> f in gs
    ensures Resolve(p, fs).depth == Resolve(p, gs).depth
  {
    var r, s := Resolve(p, fs).depth, Resolve(p, gs).depth;
    ResolveIsMaximum(p, fs);
    ResolveIsMaximum(p, gs);
    if r != p.depth {
      var i :| 0 <= i < |fs| && r == DepthOf(fs[i]);
      assert fs[i] in gs;
    }
    if s != p.depth {
      var j :| 0 <= j < |gs| && s == DepthOf(gs[j]);
      assert gs[j] in fs;
    }
    LeAntisymmetric(r, s);
  }

  /** Two fragments at the same depth: the colour left at the pixel is the
      one drawn first, so it depends on the drawing order. */
  lemma ColourDependsOnOrder(d: real, a: int, b: int)
    ensures Resolve(Blank, [Some(Fragment(d, a)), Some(Fragment(d, b))]).colour == a
    ensures Resolve(Blank, [Some(Fragment(d, b)), Some(Fragment(d, a))]).colour == b
  {
    ResolveSnoc(Blank, [Some(Fragment(d, a))], Some(Fragment(d, b)));
    ResolveSnoc(Blank, [Some(Fragment(d, b))], Some(Fragment(d, a)));
  }

  /** The z-buffer set-up: an array of W * H entries, zero as Java allocates
      it, then overwritten with negative infinity one entry at a time. */
  method NewZBuffer(w: nat, h: nat) returns (zBuffer: array<Depth>)
    ensures fresh(zBuffer)
    ensures zBuffer.Length == w * h
    ensures forall i :: 0 <= i < zBuffer.Length ==> zBuffer[i] == NegInf
  {
    zBuffer := new Depth[w * h](_ => D(0.0));
    for i := 0 to zBuffer.Length
      invariant forall k :: 0 <= k < i ==> zBuffer[k] == NegInf
    {
      zBuffer[i] := NegInf;
    }
  }
}
