// nifti_anatomical_convention: the image is turned so that the axis the
// affine's srow_x row depends on most comes first, the one srow_y depends
// on most second, and every dominant entry is positive, flipping the image
// along each axis whose sign is corrected. The header's srow_x, srow_y and
// srow_z columns and dim are gathered by each permuting stage; pixdim is
// gathered only by the last stage's order, since rot_dim is overwritten
// rather than composed (RotationsNotComposed).

module AnatomicalConvention {
  import opened JsValues
  import opened Matlab
  import MatlabPermute

  function Abs(r: real): real
  {
    if r < 0.0 then -r else r
  }

  // ----- max_abs_pos -----

  /**
   * The position max_abs_pos finds: the first entry whose magnitude no
   * other entry exceeds.
   */
  function MaxAbsPos(s: seq<real>): (pos: nat)
    requires |s| >= 1
    ensures pos < |s|
    ensures forall i :: 0 <= i < |s| ==> Abs(s[i]) <= Abs(s[pos])
    ensures forall i :: 0 <= i < pos ==> Abs(s[i]) < Abs(s[pos])
  {
    if |s| == 1 then 0
    else
      var p := MaxAbsPos(s[..|s| - 1]);
      if Abs(s[p]) < Abs(s[|s| - 1]) then |s| - 1 else p
  }

  /** `max_abs_pos(array)`: a running maximum of the magnitudes and its position. */
  method MaxAbsPosOf(a: seq<real>) returns (pos: nat)
    requires |a| >= 1
    ensures pos == MaxAbsPos(a)
  {
    var max := Abs(a[0]);
    pos := 0;
    for i := 1 to |a|
      invariant pos == MaxAbsPos(a[..i]) && max == Abs(a[pos])
    {
      assert a[..i + 1][..i] == a[..i];
      if max < Abs(a[i]) {
        pos := i;
        max := Abs(a[i]);
      }
    }
    assert a[..|a|] == a;
  }

  // ----- the header rows and the image steps -----

  /** srow_x, srow_y and srow_z: the rows of the affine, four entries each. */
  datatype Srow = Srow(x: seq<real>, y: seq<real>, z: seq<real>)

  predicate FourEach(s: Srow)
  {
    |s.x| == 4 && |s.y| == 4 && |s.z| == 4
  }

  /** Column c negated in all three rows: `srow_*[c] = -1 * srow_*[c]`. */
  function Negated(s: Srow, c: nat): (r: Srow)
    requires FourEach(s) && c < 3
    ensures FourEach(r)
  {
    Srow(s.x[c := -s.x[c]], s.y[c := -s.y[c]], s.z[c := -s.z[c]])
  }

  /** Entries 1 to 3 of xs gathered by order: `xs[k + 1] = old[order[k] + 1]`. */
  function Regather<T>(xs: seq<T>, order: seq<nat>): (r: seq<T>)
    requires |xs| >= 4 && |order| == 3 && forall k :: 0 <= k < 3 ==> order[k] < 3
    ensures |r| == |xs|
  {
    xs[1 := xs[order[0] + 1]][2 := xs[order[1] + 1]][3 := xs[order[2] + 1]]
  }

  /** The columns 0 to 2 of a row gathered by order; the translation stays. */
  function Columns(row: seq<real>, order: seq<nat>): (r: seq<real>)
    requires |row| == 4 && |order| == 3 && forall k :: 0 <= k < 3 ==> order[k] < 3
    ensures |r| == 4
  {
    [row[order[0]], row[order[1]], row[order[2]], row[3]]
  }

  function Reordered(s: Srow, order: seq<nat>): (r: Srow)
    requires FourEach(s) && |order| == 3 && forall k :: 0 <= k < 3 ==> order[k] < 3
    ensures FourEach(r)
  {
    Srow(Columns(s.x, order), Columns(s.y, order), Columns(s.z, order))
  }

  /** What is done to the image: a permute by an order, or a flip at a nesting level. */
  datatype ImageStep = PermuteStep(order: seq<nat>) | FlipStep(level: int)

  /** The shape of a regular image after the steps. */
  function ShapeAfter(shape: seq<nat>, steps: seq<ImageStep>): (r: seq<nat>)
    ensures |r| == |shape|
    decreases |steps|
  {
    if steps == [] then shape
    else match steps[0]
      case FlipStep(_) => ShapeAfter(shape, steps[1..])
      case PermuteStep(order) =>
        if |order| <= |shape| then ShapeAfter(MatlabPermute.PermutePath(shape, order), steps[1..])
        else ShapeAfter(shape, steps[1..])
  }

  /**
   * w is v after the steps, in order: each flip as flip leaves the array,
   * each permute as permute returns it.
   */
  ghost predicate Applied(v: Value, shape: seq<nat>, steps: seq<ImageStep>, w: Value)
    decreases |steps|
  {
    if steps == [] then w == v
    else match steps[0]
      case FlipStep(level) => Applied(Flipped(v, level), shape, steps[1..], w)
      case PermuteStep(order) =>
        |order| <= |shape| &&
        exists u :: MatlabPermute.IsPermuted(u, v, shape, order) &&
                    Applied(u, MatlabPermute.PermutePath(shape, order), steps[1..], w)
  }

  predicate Positive(shape: seq<nat>)
  {
    forall k :: 0 <= k < |shape| ==> shape[k] >= 1
  }

  // ----- the three stages -----

  /** The state the conversion carries from stage to stage. */
  datatype Stage = Stage(srow: Srow, dim: seq<int>, rotDim: seq<nat>, flip: seq<int>, steps: seq<ImageStep>)

  predicate ValidStage(s: Stage)
  {
    FourEach(s.srow) && |s.dim| == 8 && |s.flip| == 3 &&
    |s.rotDim| == 3 && forall k :: 0 <= k < 3 ==> s.rotDim[k] < 3
  }

  /** The order that brings column xmax of srow_x to the front: [1, 0, 2] or [2, 0, 1]. */
  function XOrder(xmax: nat): (order: seq<nat>)
    ensures order == [1, 0, 2] || order == [2, 0, 1]
  {
    if xmax == 1 then [1, 0, 2] else [2, 0, 1]
  }

  /**
   * Lines 51-127: the column srow_x depends on most is moved to the front
   * (the image permuted by [1, 0, 2] or [2, 0, 1]), after its sign is made
   * non-negative by negating it and flipping the image at level 2.
   */
  function XStage(s: Stage): (r: Stage)
    requires ValidStage(s)
    ensures ValidStage(r)
  {
    var xmax := MaxAbsPos(s.srow.x[..3]);
    var fix := s.srow.x[xmax] < 0.0;
    var srow := if fix then Negated(s.srow, xmax) else s.srow;
    var flip := if fix then s.flip[0 := 1] else s.flip;
    var flips := if fix then [FlipStep(2)] else [];
    if xmax == 0 then Stage(srow, s.dim, s.rotDim, flip, s.steps + flips)
    else
      var order := XOrder(xmax);
      Stage(Reordered(srow, order), Regather(s.dim, order), order, flip, s.steps + [PermuteStep(order)] + flips)
  }

  /**
   * Lines 130-172: when srow_y depends most on column 1, or on column 2
   * as srow_z does too, only its sign is corrected (flip at level 1);
   * when it depends most on column 2 alone, columns 1 and 2 are swapped
   * (permute by [0, 2, 1]) and then the sign of column 1 is corrected.
   */
  function YStage(s: Stage): (r: Stage)
    requires ValidStage(s)
    ensures ValidStage(r)
  {
    var ymax := MaxAbsPos(s.srow.y[..3]);
    var zmax := MaxAbsPos(s.srow.z[..3]);
    if ymax == 1 || (ymax == 2 && zmax == 2) then
      if s.srow.y[ymax] < 0.0 then
        Stage(Negated(s.srow, ymax), s.dim, s.rotDim, s.flip[1 := 1], s.steps + [FlipStep(1)])
      else s
    else if ymax == 2 then
      var order := [0, 2, 1];
      var srow := Reordered(s.srow, order);
      var fix := srow.y[1] < 0.0;
      Stage(if fix then Negated(srow, 1) else srow, Regather(s.dim, order), order,
            if fix then s.flip[1 := 1] else s.flip,
            s.steps + [PermuteStep(order)] + (if fix then [FlipStep(1)] else []))
    else s
  }

  /** Lines 174-186: when srow_z, looked at afresh, depends most on column 2 and negatively, that column and level 0 flip. */
  function ZStage(s: Stage): (r: Stage)
    requires ValidStage(s)
    ensures ValidStage(r)
  {
    var zmax := MaxAbsPos(s.srow.z[..3]);
    if zmax == 2 && s.srow.z[2] < 0.0 then
      Stage(Negated(s.srow, 2), s.dim, s.rotDim, s.flip[2 := 1], s.steps + [FlipStep(0)])
    else s
  }

  /** The permutation matrix of rot_dim: row i holds its 1 in column rot_dim[i]. */
  function Rotation(rotDim: seq<nat>): (m: seq<seq<int>>)
    requires |rotDim| == 3
    ensures |m| == 3 && forall i :: 0 <= i < 3 ==> |m[i]| == 3
  {
    seq(3, i requires 0 <= i < 3 => seq(3, j => if j == rotDim[i] then 1 else 0))
  }

  /** What the conversion leaves: the header fields it changes and the fields it adds. */
  datatype Conversion = Conversion(srow: Srow, dim: seq<int>, pixdim: seq<real>,
                                   rotation: seq<seq<int>>, rotDim: seq<nat>, flip: seq<int>, steps: seq<ImageStep>)

  /** The three stages from the identity, then pixdim gathered once by the final rot_dim. */
  function Convention(srow: Srow, dim: seq<int>, pixdim: seq<real>): Conversion
    requires FourEach(srow) && |dim| == 8 && |pixdim| == 8
  {
    var s := ZStage(YStage(XStage(Stage(srow, dim, [0, 1, 2], [0, 0, 0], []))));
    Conversion(s.srow, s.dim, Regather(pixdim, s.rotDim), Rotation(s.rotDim), s.rotDim, s.flip, s.steps)
  }

  /** The X stage when the dominant column of srow_x is not the first. */
  lemma XStageMoved(s: Stage)
    requires ValidStage(s) && MaxAbsPos(s.srow.x[..3]) != 0
    ensures var xmax := MaxAbsPos(s.srow.x[..3]);
      var order := XOrder(xmax);
      var fix := s.srow.x[xmax] < 0.0;
      XStage(s) ==
        Stage(Reordered(if fix then Negated(s.srow, xmax) else s.srow, order), Regather(s.dim, order), order,
              if fix then s.flip[0 := 1] else s.flip,
              if fix then s.steps + [PermuteStep(order)] + [FlipStep(2)] else s.steps + [PermuteStep(order)])
  {
    var xmax := MaxAbsPos(s.srow.x[..3]);
    if s.srow.x[xmax] >= 0.0 {
      assert s.steps + [PermuteStep(XOrder(xmax))] + [] == s.steps + [PermuteStep(XOrder(xmax))];
    }
  }

  /** The Y stage when srow_y depends most on column 2 and srow_z does not. */
  lemma YStageSwapped(s: Stage)
    requires ValidStage(s) && MaxAbsPos(s.srow.y[..3]) == 2 && MaxAbsPos(s.srow.z[..3]) != 2
    ensures var srow := Reordered(s.srow, [0, 2, 1]);
      var fix := srow.y[1] < 0.0;
      YStage(s) ==
        Stage(if fix then Negated(srow, 1) else srow, Regather(s.dim, [0, 2, 1]), [0, 2, 1],
              if fix then s.flip[1 := 1] else s.flip,
              if fix then s.steps + [PermuteStep([0, 2, 1])] + [FlipStep(1)] else s.steps + [PermuteStep([0, 2, 1])])
  {
    var srow := Reordered(s.srow, [0, 2, 1]);
    if srow.y[1] >= 0.0 {
      assert s.steps + [PermuteStep([0, 2, 1])] + [] == s.steps + [PermuteStep([0, 2, 1])];
    }
  }

  // ----- properties of the conversion -----

  /**
   * After the X stage srow_x[0] is an entry of largest magnitude among
   * the first three and is not negative, and final_flip[0] is set exactly
   * when the dominant entry was negative.
   */
  lemma XStageAligns(s: Stage)
    requires ValidStage(s) && s.flip == [0, 0, 0]
    ensures var r := XStage(s);
      var xmax := MaxAbsPos(s.srow.x[..3]);
      (forall i :: 0 <= i < 3 ==> Abs(r.srow.x[i]) <= r.srow.x[0]) &&
      r.srow.x[0] == Abs(s.srow.x[xmax]) &&
      (r.flip[0] == 1 <==> s.srow.x[xmax] < 0.0)
  {
    var xmax := MaxAbsPos(s.srow.x[..3]);
    assert forall i :: 0 <= i < 3 ==> s.srow.x[..3][i] == s.srow.x[i];
  }

  /** The translations srow_*[3] of two affines agree. */
  predicate SameTranslations(a: Srow, b: Srow)
    requires FourEach(a) && FourEach(b)
  {
    a.x[3] == b.x[3] && a.y[3] == b.y[3] && a.z[3] == b.z[3]
  }

  lemma XStageTranslations(s: Stage)
    requires ValidStage(s)
    ensures SameTranslations(XStage(s).srow, s.srow)
  {
  }

  lemma YStageTranslations(s: Stage)
    requires ValidStage(s)
    ensures SameTranslations(YStage(s).srow, s.srow)
  {
  }

  /** No stage touches the translations srow_*[3]. */
  lemma TranslationsKept(srow: Srow, dim: seq<int>, pixdim: seq<real>)
    requires FourEach(srow) && |dim| == 8 && |pixdim| == 8
    ensures SameTranslations(Convention(srow, dim, pixdim).srow, srow)
  {
    var a := XStage(Stage(srow, dim, [0, 1, 2], [0, 0, 0], []));
    XStageTranslations(Stage(srow, dim, [0, 1, 2], [0, 0, 0], []));
    YStageTranslations(a);
  }

  /**
   * final_flip holds 0 or 1 per axis, and axis k is marked exactly when
   * the image has been flipped at level 2 - k.
   */
  predicate FlipsRecorded(s: Stage)
    requires ValidStage(s)
  {
    forall k :: 0 <= k < 3 ==> s.flip[k] in {0, 1} && (s.flip[k] == 1 <==> FlipStep(2 - k) in s.steps)
  }

  lemma XStageFlips(s: Stage)
    requires ValidStage(s) && FlipsRecorded(s)
    ensures FlipsRecorded(XStage(s))
  {
    var r := XStage(s);
    assert FlipStep(1) in r.steps <==> FlipStep(1) in s.steps;
    assert FlipStep(0) in r.steps <==> FlipStep(0) in s.steps;
  }

  lemma YStageFlips(s: Stage)
    requires ValidStage(s) && FlipsRecorded(s)
    ensures FlipsRecorded(YStage(s))
  {
    var r := YStage(s);
    assert FlipStep(2) in r.steps <==> FlipStep(2) in s.steps;
    assert FlipStep(0) in r.steps <==> FlipStep(0) in s.steps;
  }

  lemma ZStageFlips(s: Stage)
    requires ValidStage(s) && FlipsRecorded(s)
    ensures FlipsRecorded(ZStage(s))
  {
    var r := ZStage(s);
    assert FlipStep(2) in r.steps <==> FlipStep(2) in s.steps;
    assert FlipStep(1) in r.steps <==> FlipStep(1) in s.steps;
  }

  /**
   * Each sign correction negates one column in all three rows and flips
   * the image at one level: X at level 2, Y at level 1, Z at level 0. So
   * final_flip holds 0 or 1 per axis, set exactly when that flip was made.
   */
  lemma FlipsMatchSteps(srow: Srow, dim: seq<int>, pixdim: seq<real>)
    requires FourEach(srow) && |dim| == 8 && |pixdim| == 8
    ensures var c := Convention(srow, dim, pixdim);
      (forall k :: 0 <= k < 3 ==> c.flip[k] in {0, 1}) &&
      (c.flip[0] == 1 <==> FlipStep(2) in c.steps) &&
      (c.flip[1] == 1 <==> FlipStep(1) in c.steps) &&
      (c.flip[2] == 1 <==> FlipStep(0) in c.steps)
  {
    var s := Stage(srow, dim, [0, 1, 2], [0, 0, 0], []);
    XStageFlips(s);
    YStageFlips(XStage(s));
    ZStageFlips(YStage(XStage(s)));
    var r := ZStage(YStage(XStage(s)));
    assert FlipsRecorded(r);
    assert r.flip[0] == 1 <==> FlipStep(2) in r.steps;
    assert r.flip[1] == 1 <==> FlipStep(1) in r.steps;
    assert r.flip[2] == 1 <==> FlipStep(0) in r.steps;
  }

  /**
   * rot_dim and rotation are overwritten by each permuting stage, not
   * composed: when both the X and the Y stage permute, rot_dim ends as
   * [0, 2, 1] and pixdim is gathered by that alone, while dim has been
   * gathered by both orders.
   */
  lemma RotationsNotComposed(srow: Srow, dim: seq<int>, pixdim: seq<real>)
    requires FourEach(srow) && |dim| == 8 && |pixdim| == 8
    requires var a := XStage(Stage(srow, dim, [0, 1, 2], [0, 0, 0], []));
      MaxAbsPos(srow.x[..3]) != 0 && MaxAbsPos(a.srow.y[..3]) == 2 && MaxAbsPos(a.srow.z[..3]) != 2
    ensures var c := Convention(srow, dim, pixdim);
      var first := XOrder(MaxAbsPos(srow.x[..3]));
      c.rotDim == [0, 2, 1] && c.pixdim == Regather(pixdim, [0, 2, 1]) &&
      c.dim == Regather(Regather(dim, first), [0, 2, 1]) &&
      c.rotation == [[1, 0, 0], [0, 0, 1], [0, 1, 0]]
  {
    var s0 := Stage(srow, dim, [0, 1, 2], [0, 0, 0], []);
    XStageMoved(s0);
    var a := XStage(s0);
    assert a.dim == Regather(dim, XOrder(MaxAbsPos(srow.x[..3])));
    YStageSwapped(a);
    var b := YStage(a);
    assert b.rotDim == [0, 2, 1] && b.dim == Regather(a.dim, [0, 2, 1]);
    assert ZStage(b).rotDim == b.rotDim && ZStage(b).dim == b.dim;
    RotationLiterals();
  }

  /**
   * An affine whose diagonal entries are positive and strictly dominate
   * their rows is already in the convention: nothing is permuted or
   * flipped, rotation is the identity, and dim, pixdim and the rows stay.
   */
  lemma AlignedIsFixed(srow: Srow, dim: seq<int>, pixdim: seq<real>)
    requires FourEach(srow) && |dim| == 8 && |pixdim| == 8
    requires srow.x[0] > Abs(srow.x[1]) && srow.x[0] > Abs(srow.x[2])
    requires srow.y[1] > Abs(srow.y[0]) && srow.y[1] > Abs(srow.y[2])
    requires srow.z[2] > Abs(srow.z[0]) && srow.z[2] > Abs(srow.z[1])
    ensures var c := Convention(srow, dim, pixdim);
      c.srow == srow && c.dim == dim && c.pixdim == pixdim && c.steps == [] &&
      c.rotDim == [0, 1, 2] && c.flip == [0, 0, 0] && c.rotation == [[1, 0, 0], [0, 1, 0], [0, 0, 1]]
  {
    var s0 := Stage(srow, dim, [0, 1, 2], [0, 0, 0], []);
    AbsMaxAt(srow.x[..3], 0);
    assert XStage(s0) == s0 by { assert s0.steps + [] == s0.steps; }
    AbsMaxAt(srow.y[..3], 1);
    assert YStage(s0) == s0;
    AbsMaxAt(srow.z[..3], 2);
    assert ZStage(s0) == s0;
    var c := Convention(srow, dim, pixdim);
    assert c.rotation[0] == [1, 0, 0] && c.rotation[1] == [0, 1, 0] && c.rotation[2] == [0, 0, 1];
    assert Regather(pixdim, [0, 1, 2]) == pixdim;
  }

  /** An entry strictly larger in magnitude than every other is the one max_abs_pos finds. */
  lemma AbsMaxAt(s: seq<real>, k: nat)
    requires k < |s| && forall i :: 0 <= i < |s| && i != k ==> Abs(s[i]) < Abs(s[k])
    ensures MaxAbsPos(s) == k
  {
  }

  /** `old = xs.slice(1, 4)`, then `xs[loc + 1] = old[order[loc]]` for each loc. */
  method Regathered<T>(xs: seq<T>, order: seq<nat>) returns (r: seq<T>)
    requires |xs| == 8 && |order| == 3 && forall k :: 0 <= k < 3 ==> order[k] < 3
    ensures r == Regather(xs, order)
  {
    var before := xs[1..4];
    r := xs;
    for loc := 0 to 3
      invariant |r| == 8 && r[0] == xs[0] && r[4..] == xs[4..]
      invariant forall k :: 0 <= k < loc ==> r[k + 1] == xs[order[k] + 1]
      invariant forall j :: loc + 1 <= j < 4 ==> r[j] == xs[j]
    {
      r := r[loc + 1 := before[order[loc]]];
    }
  }

  // ----- the image steps, one at a time -----

  /** v0 became image by the steps, and image is regular with no empty level. */
  ghost predicate Tracks(v0: Value, shape0: seq<nat>, steps: seq<ImageStep>, image: Value)
  {
    Applied(v0, shape0, steps, image) && HasShape(image, ShapeAfter(shape0, steps)) &&
    Positive(ShapeAfter(shape0, steps))
  }

  lemma {:induction false} ShapeAfterSnoc(shape: seq<nat>, steps: seq<ImageStep>, step: ImageStep)
    ensures ShapeAfter(shape, steps + [step]) == ShapeAfter(ShapeAfter(shape, steps), [step])
    decreases |steps|
  {
    if steps != [] {
      assert (steps + [step])[1..] == steps[1..] + [step];
      match steps[0]
      case FlipStep(_) =>
        ShapeAfterSnoc(shape, steps[1..], step);
      case PermuteStep(order) =>
        if |order| <= |shape| {
          ShapeAfterSnoc(MatlabPermute.PermutePath(shape, order), steps[1..], step);
        } else {
          ShapeAfterSnoc(shape, steps[1..], step);
        }
    }
  }

  /** Applied grows by one step at the end. */
  lemma {:induction false} AppliedSnoc(v: Value, shape: seq<nat>, steps: seq<ImageStep>, w: Value,
                                       step: ImageStep, w': Value)
    requires Applied(v, shape, steps, w)
    requires step.FlipStep? ==> w' == Flipped(w, step.level)
    requires step.PermuteStep? ==>
      |step.order| <= |shape| && MatlabPermute.IsPermuted(w', w, ShapeAfter(shape, steps), step.order)
    ensures Applied(v, shape, steps + [step], w')
    decreases |steps|
  {
    if steps == [] {
      assert [step][1..] == [];
      if step.PermuteStep? {
        assert Applied(w', MatlabPermute.PermutePath(shape, step.order), [], w');
      }
    } else {
      assert (steps + [step])[1..] == steps[1..] + [step];
      match steps[0]
      case FlipStep(level) =>
        AppliedSnoc(Flipped(v, level), shape, steps[1..], w, step, w');
      case PermuteStep(order) =>
        var u :| MatlabPermute.IsPermuted(u, v, shape, order) &&
                 Applied(u, MatlabPermute.PermutePath(shape, order), steps[1..], w);
        AppliedSnoc(u, MatlabPermute.PermutePath(shape, order), steps[1..], w, step, w');
    }
  }

  lemma PermutedPositive(shape: seq<nat>, order: seq<int>)
    requires |order| <= |shape| && Positive(shape)
    ensures Positive(MatlabPermute.PermutePath(shape, order))
  {
    var p := MatlabPermute.PermutePath(shape, order);
    assert forall k :: 0 <= k < |shape| ==> p[k] >= 1;
  }

  lemma TracksFlip(v0: Value, shape0: seq<nat>, steps: seq<ImageStep>, image: Value, level: int)
    requires Tracks(v0, shape0, steps, image)
    ensures Tracks(v0, shape0, steps + [FlipStep(level)], Flipped(image, level))
  {
    AppliedSnoc(v0, shape0, steps, image, FlipStep(level), Flipped(image, level));
    ShapeAfterSnoc(shape0, steps, FlipStep(level));
    FlipKeepsShape(image, level, ShapeAfter(shape0, steps));
  }

  lemma TracksPermute(v0: Value, shape0: seq<nat>, steps: seq<ImageStep>, image: Value, order: seq<nat>, w: Value)
    requires Tracks(v0, shape0, steps, image) && |order| <= |shape0|
    requires MatlabPermute.IsPermuted(w, image, ShapeAfter(shape0, steps), order)
    ensures Tracks(v0, shape0, steps + [PermuteStep(order)], w)
  {
    AppliedSnoc(v0, shape0, steps, image, PermuteStep(order), w);
    ShapeAfterSnoc(shape0, steps, PermuteStep(order));
    PermutedPositive(ShapeAfter(shape0, steps), order);
  }

  // ----- the conversion on a NIfTI structure -----

  /**
   * The parts of nii the conversion reads and writes: the srow rows,
   * dim, pixdim and the image, and the fields it adds. `steps` records
   * what has been done to the image so far.
   */
  class Nifti {
    var srowX: seq<real>
    var srowY: seq<real>
    var srowZ: seq<real>
    var dim: seq<int>
    var pixdim: seq<real>
    var img: Value
    var rotation: seq<seq<int>>
    var rotDim: seq<nat>
    var flip: seq<int>
    ghost var steps: seq<ImageStep>

    constructor (srowX: seq<real>, srowY: seq<real>, srowZ: seq<real>, dim: seq<int>, pixdim: seq<real>, img: Value)
      ensures this.srowX == srowX && this.srowY == srowY && this.srowZ == srowZ
      ensures this.dim == dim && this.pixdim == pixdim && this.img == img
      ensures rotation == [] && rotDim == [] && flip == [] && steps == []
    {
      this.srowX, this.srowY, this.srowZ := srowX, srowY, srowZ;
      this.dim, this.pixdim, this.img := dim, pixdim, img;
      rotation, rotDim, flip, steps := [], [], [], [];
    }

    function Affine(): Srow
      reads this
    {
      Srow(srowX, srowY, srowZ)
    }

    ghost function StageOf(): Stage
      reads this
    {
      Stage(Affine(), dim, rotDim, flip, steps)
    }

    /** The invariant between stages: the lengths, and rotation matching rot_dim. */
    ghost predicate Valid()
      reads this
    {
      ValidStage(StageOf()) && rotation == Rotation(rotDim)
    }

    /** `srow_*[c] = -1 * srow_*[c]` in all three rows. */
    method NegateColumn(c: nat)
      requires FourEach(Affine()) && c < 3
      modifies this
      ensures Affine() == Negated(old(Affine()), c)
      ensures dim == old(dim) && pixdim == old(pixdim) && img == old(img)
      ensures rotation == old(rotation) && rotDim == old(rotDim) && flip == old(flip) && steps == old(steps)
    {
      srowX := srowX[c := -1.0 * srowX[c]];
      srowY := srowY[c := -1.0 * srowY[c]];
      srowZ := srowZ[c := -1.0 * srowZ[c]];
    }

    /** `old_dim = dim.slice(1, 4)`, then `dim[loc + 1] = old_dim[order[loc]]`. */
    method RegatherDim(order: seq<nat>)
      requires |dim| == 8 && |order| == 3 && forall k :: 0 <= k < 3 ==> order[k] < 3
      modifies this
      ensures dim == Regather(old(dim), order)
      ensures Affine() == old(Affine()) && pixdim == old(pixdim) && img == old(img)
      ensures rotation == old(rotation) && rotDim == old(rotDim) && flip == old(flip) && steps == old(steps)
    {
      dim := Regathered(dim, order);
    }

    /** The same gathering on pixdim, by the final rot_dim. */
    method RegatherPixdim(order: seq<nat>)
      requires |pixdim| == 8 && |order| == 3 && forall k :: 0 <= k < 3 ==> order[k] < 3
      modifies this
      ensures pixdim == Regather(old(pixdim), order)
      ensures Affine() == old(Affine()) && dim == old(dim) && img == old(img)
      ensures rotation == old(rotation) && rotDim == old(rotDim) && flip == old(flip) && steps == old(steps)
    {
      pixdim := Regathered(pixdim, order);
    }

    /** `flip(image, level)`: the image reversed in place at that level. */
    method FlipImage(level: int, ghost v0: Value, ghost shape0: seq<nat>)
      requires Tracks(v0, shape0, steps, img)
      modifies this
      ensures img == Flipped(old(img), level) && steps == old(steps) + [FlipStep(level)]
      ensures Tracks(v0, shape0, steps, img)
      ensures Affine() == old(Affine()) && dim == old(dim) && pixdim == old(pixdim)
      ensures rotation == old(rotation) && rotDim == old(rotDim) && flip == old(flip)
    {
      TracksFlip(v0, shape0, steps, img, level);
      if img.Arr? {
        var items := img.items;
        var a := new Value[|items|](i requires 0 <= i < |items| => items[i]);
        assert Arr(a[..]) == img;
        Flip(a, level);
        img := Arr(a[..]);
      }
      steps := steps + [FlipStep(level)];
    }

    /** `image = permute(image, order)` on a regular image with no empty level. */
    method PermuteImage(order: seq<nat>, ghost v0: Value, ghost shape0: seq<nat>)
      requires Tracks(v0, shape0, steps, img) && MatlabPermute.ValidOrder(order) && |order| <= |shape0|
      modifies this
      ensures MatlabPermute.IsPermuted(img, old(img), ShapeAfter(shape0, old(steps)), order)
      ensures steps == old(steps) + [PermuteStep(order)] && Tracks(v0, shape0, steps, img)
      ensures Affine() == old(Affine()) && dim == old(dim) && pixdim == old(pixdim)
      ensures rotation == old(rotation) && rotDim == old(rotDim) && flip == old(flip)
    {
      var shape := ShapeAfter(shape0, steps);
      var a := new int[|order|](i requires 0 <= i < |order| => order[i]);
      assert a[..] == order;
      var permuted := MatlabPermute.Permute(img, a, shape);
      assert permuted.Ok?;
      TracksPermute(v0, shape0, steps, img, order, permuted.value);
      img := permuted.value;
      steps := steps + [PermuteStep(order)];
    }
  
    /**
     * A sign correction: the image flipped at `level`, final_flip[axis]
     * set, and column c negated in the three rows.
     */
    method CorrectSign(c: nat, level: int, axis: nat, ghost v0: Value, ghost shape0: seq<nat>)
      requires Valid() && Tracks(v0, shape0, steps, img) && c < 3 && axis < 3
      modifies this
      ensures Valid() && Tracks(v0, shape0, steps, img)
      ensures Affine() == Negated(old(Affine()), c) && flip == old(flip)[axis := 1] && steps == old(steps) + [FlipStep(level)]
      ensures dim == old(dim) && pixdim == old(pixdim) && rotDim == old(rotDim)
    {
      FlipImage(level, v0, shape0);
      flip := flip[axis := 1];
      NegateColumn(c);
    }

    /**
     * The columns 0 to 2 of the three rows, and dim[1..3], reordered by
     * `order`, which becomes rot_dim, with `rot` its matrix.
     */
    method ReorderHeader(order: seq<nat>, rot: seq<seq<int>>)
      requires Valid() && |order| == 3 && (forall k :: 0 <= k < 3 ==> order[k] < 3) && rot == Rotation(order)
      modifies this
      ensures Valid() && Affine() == Reordered(old(Affine()), order) && dim == Regather(old(dim), order) && rotDim == order
      ensures flip == old(flip) && steps == old(steps) && img == old(img) && pixdim == old(pixdim)
    {
      srowX := [srowX[order[0]], srowX[order[1]], srowX[order[2]], srowX[3]];
      srowY := [srowY[order[0]], srowY[order[1]], srowY[order[2]], srowY[3]];
      srowZ := [srowZ[order[0]], srowZ[order[1]], srowZ[order[2]], srowZ[3]];
      rotDim := order;
      rotation := rot;
      RegatherDim(rotDim);
    }

    /** The X stage when srow_x depends most on column xmax > 0: permute, sign, reorder. */
    method MoveX(xmax: nat, order: seq<nat>, rot: seq<seq<int>>, ghost v0: Value, ghost shape0: seq<nat>)
      requires Valid() && Tracks(v0, shape0, steps, img) && |shape0| >= 3
      requires 0 < xmax < 3 && xmax == MaxAbsPos(srowX[..3])
      requires order == XOrder(xmax) && rot == Rotation(order)
      modifies this
      ensures Valid() && StageOf() == XStage(old(StageOf())) && Tracks(v0, shape0, steps, img)
      ensures pixdim == old(pixdim)
    {
      ghost var s := StageOf();
      XStageMoved(s);
      MatlabPermute.OrderOfThree(order[0], order[1], order[2]);
      PermuteImage(order, v0, shape0);
      if srowX[xmax] < 0.0 {
        CorrectSign(xmax, 2, 0, v0, shape0);
      }
      ReorderHeader(order, rot);
    }

    /**
     * The X stage: `max_abs_pos` of srow_x's first three entries, the
     * permute that brings that column to the front, the sign correction
     * with a flip at level 2, and the column and dim reordering.
     */
    method AlignX(ghost v0: Value, ghost shape0: seq<nat>)
      requires Valid() && Tracks(v0, shape0, steps, img) && |shape0| >= 3
      modifies this
      ensures Valid() && StageOf() == XStage(old(StageOf())) && Tracks(v0, shape0, steps, img)
      ensures pixdim == old(pixdim)
    {
      var xmax := MaxAbsPosOf(srowX[..3]);
      RotationLiterals();
      if xmax == 0 {
        if srowX[xmax] < 0.0 {
          CorrectSign(xmax, 2, 0, v0, shape0);
        }
      } else if xmax == 1 {
        MoveX(xmax, [1, 0, 2], [[0, 1, 0], [1, 0, 0], [0, 0, 1]], v0, shape0);
      } else {
        MoveX(xmax, [2, 0, 1], [[0, 0, 1], [1, 0, 0], [0, 1, 0]], v0, shape0);
      }
    }

    /** The Y stage when srow_y depends most on column 2 and srow_z does not: swap columns 1 and 2, then the sign of column 1. */
    method SwapY(ghost v0: Value, ghost shape0: seq<nat>)
      requires Valid() && Tracks(v0, shape0, steps, img) && |shape0| >= 3
      requires MaxAbsPos(srowY[..3]) == 2 && MaxAbsPos(srowZ[..3]) != 2
      modifies this
      ensures Valid() && StageOf() == YStage(old(StageOf())) && Tracks(v0, shape0, steps, img)
      ensures pixdim == old(pixdim)
    {
      ghost var s := StageOf();
      YStageSwapped(s);
      MatlabPermute.OrderOfThree(0, 2, 1);
      RotationLiterals();
      PermuteImage([0, 2, 1], v0, shape0);
      ReorderHeader([0, 2, 1], [[1, 0, 0], [0, 0, 1], [0, 1, 0]]);
      if srowY[1] < 0.0 {
        CorrectSign(1, 1, 1, v0, shape0);
      }
    }

    /**
     * The Y stage: a sign correction of srow_y's dominant column with a
     * flip at level 1, or, when that column is 2 and srow_z's is not, the
     * swap of columns 1 and 2 first.
     */
    method AlignY(ghost v0: Value, ghost shape0: seq<nat>)
      requires Valid() && Tracks(v0, shape0, steps, img) && |shape0| >= 3
      modifies this
      ensures Valid() && StageOf() == YStage(old(StageOf())) && Tracks(v0, shape0, steps, img)
      ensures pixdim == old(pixdim)
    {
      var ymax := MaxAbsPosOf(srowY[..3]);
      var zmax := MaxAbsPosOf(srowZ[..3]);
      if ymax == 1 || (ymax == 2 && zmax == 2) {
        if srowY[ymax] < 0.0 {
          CorrectSign(ymax, 1, 1, v0, shape0);
        }
      } else if ymax == 2 {
        SwapY(v0, shape0);
      }
    }

    /** The Z stage: srow_z's dominant column, looked up afresh, corrected when it is column 2, with a flip at level 0. */
    method AlignZ(ghost v0: Value, ghost shape0: seq<nat>)
      requires Valid() && Tracks(v0, shape0, steps, img)
      modifies this
      ensures Valid() && StageOf() == ZStage(old(StageOf())) && Tracks(v0, shape0, steps, img)
      ensures pixdim == old(pixdim)
    {
      var zmax := MaxAbsPosOf(srowZ[..3]);
      if zmax == 2 {
        if srowZ[zmax] < 0.0 {
          CorrectSign(zmax, 0, 2, v0, shape0);
        }
      }
    }

    /**
     * `nifti_anatomical_convention(nii)` on an image that is a regular
     * array of at least three levels, none empty: the header and the
     * added fields as Convention computes them, and the image as the
     * recorded permutes and flips leave it.
     */
    method Convert()
      requires FourEach(Affine()) && |dim| == 8 && |pixdim| == 8
      requires HasShape(img, Size(img)) && Positive(Size(img)) && |Size(img)| >= 3
      modifies this
      ensures var c := Convention(old(Affine()), old(dim), old(pixdim));
        Affine() == c.srow && dim == c.dim && pixdim == c.pixdim && rotation == c.rotation &&
        rotDim == c.rotDim && flip == c.flip && steps == c.steps && Applied(old(img), Size(old(img)), steps, img)
    {
      ghost var v0, shape0 := img, Size(img);
      flip := [0, 0, 0];
      rotDim := [0, 1, 2];
      rotation := [[1, 0, 0], [0, 1, 0], [0, 0, 1]];
      steps := [];
      RotationLiterals();
      AlignX(v0, shape0);
      AlignY(v0, shape0);
      AlignZ(v0, shape0);
      RegatherPixdim(rotDim);
    }
  }

  /** The literal rotation matrices of the source are the permutation matrices of their rot_dim. */
  lemma RotationLiterals()
    ensures Rotation([0, 1, 2]) == [[1, 0, 0], [0, 1, 0], [0, 0, 1]]
    ensures Rotation([1, 0, 2]) == [[0, 1, 0], [1, 0, 0], [0, 0, 1]]
    ensures Rotation([2, 0, 1]) == [[0, 0, 1], [1, 0, 0], [0, 1, 0]]
    ensures Rotation([0, 2, 1]) == [[1, 0, 0], [0, 0, 1], [0, 1, 0]]
  {
    RotationOfThree(0, 1, 2);
    RotationOfThree(1, 0, 2);
    RotationOfThree(2, 0, 1);
    RotationOfThree(0, 2, 1);
  }

  /** Row i of the matrix is the unit row of rot_dim[i]. */
  lemma RotationOfThree(a: nat, b: nat, c: nat)
    requires a < 3 && b < 3 && c < 3
    ensures Rotation([a, b, c]) == [UnitRow(a), UnitRow(b), UnitRow(c)]
  {
    var m := Rotation([a, b, c]);
    UnitRowFacts(a);
    UnitRowFacts(b);
    UnitRowFacts(c);
    assert m[0] == UnitRow(a) && m[1] == UnitRow(b) && m[2] == UnitRow(c);
  }

  function UnitRow(k: nat): seq<int>
    requires k < 3
  {
    if k == 0 then [1, 0, 0] else if k == 1 then [0, 1, 0] else [0, 0, 1]
  }

  lemma UnitRowFacts(k: nat)
    requires k < 3
    ensures UnitRow(k) == seq(3, j => if j == k then 1 else 0)
  {
  }
}
