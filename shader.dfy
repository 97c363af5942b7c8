/** Assembly of the WGSL kernel source in `WgpuWrapper::new`
    (src/core/gpu/wgpu.rs:133-149): the lens-model functions are spliced into the
    kernel template, and the scalar type, background scale, interpolation mode
    and (when the overlay is off) the overlay test are substituted as text.
    Being a function, the assembly yields the same text for the same inputs. */
module Shader {
  import opened Common
  import opened Strings

  const LENS_PLACEHOLDER: string := "LENS_MODEL_FUNCTIONS;"
  const SCALAR_PLACEHOLDER: string := "SCALAR"
  const BG_SCALER_PLACEHOLDER: string := "bg_scaler"
  const INTERPOLATION_PLACEHOLDER: string := "params.interpolation"
  const OVERLAY_TEST: string := "bool(params.flags & 8)"

  /** The identity pair used when the camera has no digital lens: both
      functions return their argument. The literal spans two source lines, the
      second indented by 44 spaces. */
  const DEFAULT_DIGITAL_LENS: string :=
    "fn digital_undistort_point(uv: vec2<f32>) -> vec2<f32> { return uv; }\n"
    + "                                            "
    + "fn digital_distort_point(uv: vec2<f32>) -> vec2<f32> { return uv; }"

  /** What the assembly reads: the template text (the embedded
      `wgpu_undistort.wgsl`), the distortion model's WGSL functions, the
      digital lens's functions if there is one, the scalar type name of the
      texture format, and the background scale already rendered as text. */
  datatype ShaderSources = ShaderSources(
    template: string,
    distortionModel: string,
    digitalLens: Option<string>,
    scalar: string,
    bgScalerText: string)


  /** The distortion model's functions followed by the digital lens's, or by
      the identity pair when there is no digital lens. */
  function LensModelFunctions(src: ShaderSources): string {
    src.distortionModel + (match src.digitalLens
                           case Some(d) => d
                           case None => DEFAULT_DIGITAL_LENS)
  }

  /** A character of an interpolation literal: a digit, the sign, or `u`. */
  predicate LiteralChar(c: char) {
    IsDigit(c) || c == '-' || c == 'u'
  }

  /** The interpolation mode as a WGSL unsigned literal: `format!("{}u", ..)`.
      It holds at least a digit and the suffix, and nothing but digits, a
      sign and the suffix. */
  function InterpolationLiteral(interpolation: int): (r: string)
    ensures |r| >= 2 && r[|r| - 1] == 'u'
    ensures forall k :: 0 <= k < |r| ==> LiteralChar(r[k])
  {
    IntToDecimal(interpolation) + "u"
  }

  /** The kernel text after the four replacements made unconditionally, in
      the source's order, each applied to the whole text. No interpolation
      placeholder is left in it, whatever the template and the spliced texts
      hold. */
  function Substituted(src: ShaderSources, interpolation: int): (r: string)
    ensures !Occurs(r, INTERPOLATION_PLACEHOLDER)
  {
    var withLens := ReplaceAll(src.template, LENS_PLACEHOLDER, LensModelFunctions(src));
    var withScalar := ReplaceAll(withLens, SCALAR_PLACEHOLDER, src.scalar);
    var withBgScaler := ReplaceAll(withScalar, BG_SCALER_PLACEHOLDER, src.bgScalerText);
    LiteralApartFromInterpolation(interpolation);
    ReplaceLeavesNone(withBgScaler, INTERPOLATION_PLACEHOLDER, INTERPOLATION_PLACEHOLDER, InterpolationLiteral(interpolation));
    ReplaceAll(withBgScaler, INTERPOLATION_PLACEHOLDER, InterpolationLiteral(interpolation))
  }

  /** The final kernel source handed to the shader compiler: with the overlay
      disabled, the overlay test is also folded to `false`. No interpolation
      placeholder survives, and with the overlay disabled no overlay test
      survives either. */
  function AssembleKernel(src: ShaderSources, interpolation: int, drawingEnabled: bool): (r: string)
    ensures !Occurs(r, INTERPOLATION_PLACEHOLDER)
    ensures !drawingEnabled ==> !Occurs(r, OVERLAY_TEST)
  {
    var kernel := Substituted(src, interpolation);
    if drawingEnabled then kernel
    else
      FalseApartFromPlaceholders();
      ReplaceLeavesNone(kernel, INTERPOLATION_PLACEHOLDER, OVERLAY_TEST, "false");
      ReplaceLeavesNone(kernel, OVERLAY_TEST, OVERLAY_TEST, "false");
      ReplaceAll(kernel, OVERLAY_TEST, "false")
  }

  /** A template with none of the placeholders is compiled verbatim. */
  lemma AssemblePlainTemplate(src: ShaderSources, interpolation: int, drawingEnabled: bool)
    requires !Occurs(src.template, LENS_PLACEHOLDER) && !Occurs(src.template, SCALAR_PLACEHOLDER)
    requires !Occurs(src.template, BG_SCALER_PLACEHOLDER) && !Occurs(src.template, INTERPOLATION_PLACEHOLDER)
    requires !drawingEnabled ==> !Occurs(src.template, OVERLAY_TEST)
    ensures AssembleKernel(src, interpolation, drawingEnabled) == src.template
  {
  }

  /** The lens placeholder, wherever it sits in the template, is replaced by
      the distortion model's functions followed by the digital lens's
      functions, or by the identity pair; the text before and after it is
      assembled on its own. The spliced functions must not themselves hold or
      complete a later placeholder, since the later replacements run over
      them too. */
  lemma AssembleSplicesLensFunctions(src: ShaderSources, pre: string, post: string, interpolation: int, drawingEnabled: bool)
    requires src.template == pre + LENS_PLACEHOLDER + post
    requires var lens := LensModelFunctions(src);
      && Inert(SCALAR_PLACEHOLDER, lens) && Inert(BG_SCALER_PLACEHOLDER, lens)
      && Inert(INTERPOLATION_PLACEHOLDER, lens) && (!drawingEnabled ==> Inert(OVERLAY_TEST, lens))
    ensures AssembleKernel(src, interpolation, drawingEnabled)
         == AssembleKernel(src.(template := pre), interpolation, drawingEnabled)
            + (src.distortionModel + (if src.digitalLens.Some? then src.digitalLens.value else DEFAULT_DIGITAL_LENS))
            + AssembleKernel(src.(template := post), interpolation, drawingEnabled)
  {
    var lens := LensModelFunctions(src);
    PlaceholdersBorderFree();
    ReplaceThrough(pre, post, LENS_PLACEHOLDER, lens);
    var pre1, post1 := ReplaceAll(pre, LENS_PLACEHOLDER, lens), ReplaceAll(post, LENS_PLACEHOLDER, lens);
    ReplaceAround(pre1, lens, post1, SCALAR_PLACEHOLDER, src.scalar);
    var pre2, post2 := ReplaceAll(pre1, SCALAR_PLACEHOLDER, src.scalar), ReplaceAll(post1, SCALAR_PLACEHOLDER, src.scalar);
    ReplaceAround(pre2, lens, post2, BG_SCALER_PLACEHOLDER, src.bgScalerText);
    var pre3, post3 := ReplaceAll(pre2, BG_SCALER_PLACEHOLDER, src.bgScalerText), ReplaceAll(post2, BG_SCALER_PLACEHOLDER, src.bgScalerText);
    var literal := InterpolationLiteral(interpolation);
    ReplaceAround(pre3, lens, post3, INTERPOLATION_PLACEHOLDER, literal);
    if !drawingEnabled {
      var pre4, post4 := ReplaceAll(pre3, INTERPOLATION_PLACEHOLDER, literal), ReplaceAll(post3, INTERPOLATION_PLACEHOLDER, literal);
      ReplaceAround(pre4, lens, post4, OVERLAY_TEST, "false");
    }
  }

  /** The scalar placeholder, wherever it sits in the template, becomes the
      texture format's scalar type; the text around it is assembled on its
      own. The type name must not hold or complete a later placeholder. */
  lemma AssembleSubstitutesScalar(src: ShaderSources, pre: string, post: string, interpolation: int, drawingEnabled: bool)
    requires src.template == pre + SCALAR_PLACEHOLDER + post
    requires Inert(BG_SCALER_PLACEHOLDER, src.scalar) && Inert(INTERPOLATION_PLACEHOLDER, src.scalar)
    requires !drawingEnabled ==> Inert(OVERLAY_TEST, src.scalar)
    ensures AssembleKernel(src, interpolation, drawingEnabled)
         == AssembleKernel(src.(template := pre), interpolation, drawingEnabled)
            + src.scalar
            + AssembleKernel(src.(template := post), interpolation, drawingEnabled)
  {
    var lens := LensModelFunctions(src);
    ScalarPlaceholderApart();
    PlaceholdersBorderFree();
    ReplaceAround(pre, SCALAR_PLACEHOLDER, post, LENS_PLACEHOLDER, lens);
    var pre1, post1 := ReplaceAll(pre, LENS_PLACEHOLDER, lens), ReplaceAll(post, LENS_PLACEHOLDER, lens);
    ReplaceThrough(pre1, post1, SCALAR_PLACEHOLDER, src.scalar);
    var pre2, post2 := ReplaceAll(pre1, SCALAR_PLACEHOLDER, src.scalar), ReplaceAll(post1, SCALAR_PLACEHOLDER, src.scalar);
    ReplaceAround(pre2, src.scalar, post2, BG_SCALER_PLACEHOLDER, src.bgScalerText);
    var pre3, post3 := ReplaceAll(pre2, BG_SCALER_PLACEHOLDER, src.bgScalerText), ReplaceAll(post2, BG_SCALER_PLACEHOLDER, src.bgScalerText);
    var literal := InterpolationLiteral(interpolation);
    ReplaceAround(pre3, src.scalar, post3, INTERPOLATION_PLACEHOLDER, literal);
    if !drawingEnabled {
      var pre4, post4 := ReplaceAll(pre3, INTERPOLATION_PLACEHOLDER, literal), ReplaceAll(post3, INTERPOLATION_PLACEHOLDER, literal);
      ReplaceAround(pre4, src.scalar, post4, OVERLAY_TEST, "false");
    }
  }

  /** The background-scale placeholder, wherever it sits in the template,
      becomes the rendered scale; the text around it is assembled on its own.
      The rendered scale must not hold or complete a later placeholder. */
  lemma AssembleSubstitutesBgScaler(src: ShaderSources, pre: string, post: string, interpolation: int, drawingEnabled: bool)
    requires src.template == pre + BG_SCALER_PLACEHOLDER + post
    requires Inert(INTERPOLATION_PLACEHOLDER, src.bgScalerText)
    requires !drawingEnabled ==> Inert(OVERLAY_TEST, src.bgScalerText)
    ensures AssembleKernel(src, interpolation, drawingEnabled)
         == AssembleKernel(src.(template := pre), interpolation, drawingEnabled)
            + src.bgScalerText
            + AssembleKernel(src.(template := post), interpolation, drawingEnabled)
  {
    var lens := LensModelFunctions(src);
    BgScalerPlaceholderApart();
    PlaceholdersBorderFree();
    ReplaceAround(pre, BG_SCALER_PLACEHOLDER, post, LENS_PLACEHOLDER, lens);
    var pre1, post1 := ReplaceAll(pre, LENS_PLACEHOLDER, lens), ReplaceAll(post, LENS_PLACEHOLDER, lens);
    ReplaceAround(pre1, BG_SCALER_PLACEHOLDER, post1, SCALAR_PLACEHOLDER, src.scalar);
    var pre2, post2 := ReplaceAll(pre1, SCALAR_PLACEHOLDER, src.scalar), ReplaceAll(post1, SCALAR_PLACEHOLDER, src.scalar);
    ReplaceThrough(pre2, post2, BG_SCALER_PLACEHOLDER, src.bgScalerText);
    var pre3, post3 := ReplaceAll(pre2, BG_SCALER_PLACEHOLDER, src.bgScalerText), ReplaceAll(post2, BG_SCALER_PLACEHOLDER, src.bgScalerText);
    var literal := InterpolationLiteral(interpolation);
    ReplaceAround(pre3, src.bgScalerText, post3, INTERPOLATION_PLACEHOLDER, literal);
    if !drawingEnabled {
      var pre4, post4 := ReplaceAll(pre3, INTERPOLATION_PLACEHOLDER, literal), ReplaceAll(post3, INTERPOLATION_PLACEHOLDER, literal);
      ReplaceAround(pre4, src.bgScalerText, post4, OVERLAY_TEST, "false");
    }
  }

  /** The interpolation placeholder, wherever it sits in the template,
      becomes the mode's decimal value followed by `u`, a WGSL unsigned
      literal; the text around it is assembled on its own. */
  lemma AssembleInlinesInterpolation(src: ShaderSources, pre: string, post: string, interpolation: int, drawingEnabled: bool)
    requires src.template == pre + INTERPOLATION_PLACEHOLDER + post
    ensures AssembleKernel(src, interpolation, drawingEnabled)
         == AssembleKernel(src.(template := pre), interpolation, drawingEnabled)
            + (IntToDecimal(interpolation) + "u")
            + AssembleKernel(src.(template := post), interpolation, drawingEnabled)
  {
    var lens := LensModelFunctions(src);
    InterpolationPlaceholderApart();
    PlaceholdersBorderFree();
    ReplaceAround(pre, INTERPOLATION_PLACEHOLDER, post, LENS_PLACEHOLDER, lens);
    var pre1, post1 := ReplaceAll(pre, LENS_PLACEHOLDER, lens), ReplaceAll(post, LENS_PLACEHOLDER, lens);
    ReplaceAround(pre1, INTERPOLATION_PLACEHOLDER, post1, SCALAR_PLACEHOLDER, src.scalar);
    var pre2, post2 := ReplaceAll(pre1, SCALAR_PLACEHOLDER, src.scalar), ReplaceAll(post1, SCALAR_PLACEHOLDER, src.scalar);
    ReplaceAround(pre2, INTERPOLATION_PLACEHOLDER, post2, BG_SCALER_PLACEHOLDER, src.bgScalerText);
    var pre3, post3 := ReplaceAll(pre2, BG_SCALER_PLACEHOLDER, src.bgScalerText), ReplaceAll(post2, BG_SCALER_PLACEHOLDER, src.bgScalerText);
    var literal := InterpolationLiteral(interpolation);
    ReplaceThrough(pre3, post3, INTERPOLATION_PLACEHOLDER, literal);
    if !drawingEnabled {
      LiteralApartFromOverlayTest(interpolation);
      var pre4, post4 := ReplaceAll(pre3, INTERPOLATION_PLACEHOLDER, literal), ReplaceAll(post3, INTERPOLATION_PLACEHOLDER, literal);
      ReplaceAround(pre4, literal, post4, OVERLAY_TEST, "false");
    }
  }

  /** The overlay test, wherever it sits in the template, is folded to `false`
      when the overlay is disabled and kept when it is enabled; the text
      around it is assembled on its own. */
  lemma AssembleFoldsOverlayTest(src: ShaderSources, pre: string, post: string, interpolation: int, drawingEnabled: bool)
    requires src.template == pre + OVERLAY_TEST + post
    ensures AssembleKernel(src, interpolation, drawingEnabled)
         == AssembleKernel(src.(template := pre), interpolation, drawingEnabled)
            + (if drawingEnabled then OVERLAY_TEST else "false")
            + AssembleKernel(src.(template := post), interpolation, drawingEnabled)
  {
    var lens := LensModelFunctions(src);
    OverlayTestApart();
    PlaceholdersBorderFree();
    ReplaceAround(pre, OVERLAY_TEST, post, LENS_PLACEHOLDER, lens);
    var pre1, post1 := ReplaceAll(pre, LENS_PLACEHOLDER, lens), ReplaceAll(post, LENS_PLACEHOLDER, lens);
    ReplaceAround(pre1, OVERLAY_TEST, post1, SCALAR_PLACEHOLDER, src.scalar);
    var pre2, post2 := ReplaceAll(pre1, SCALAR_PLACEHOLDER, src.scalar), ReplaceAll(post1, SCALAR_PLACEHOLDER, src.scalar);
    ReplaceAround(pre2, OVERLAY_TEST, post2, BG_SCALER_PLACEHOLDER, src.bgScalerText);
    var pre3, post3 := ReplaceAll(pre2, BG_SCALER_PLACEHOLDER, src.bgScalerText), ReplaceAll(post2, BG_SCALER_PLACEHOLDER, src.bgScalerText);
    var literal := InterpolationLiteral(interpolation);
    ReplaceAround(pre3, OVERLAY_TEST, post3, INTERPOLATION_PLACEHOLDER, literal);
    if !drawingEnabled {
      var pre4, post4 := ReplaceAll(pre3, INTERPOLATION_PLACEHOLDER, literal), ReplaceAll(post3, INTERPOLATION_PLACEHOLDER, literal);
      ReplaceThrough(pre4, post4, OVERLAY_TEST, "false");
    }
  }

  // Facts about the fixed texts: which of them can overlap which.

  /** `p` cannot run into `z` when `z`'s first character does not occur in
      `p` after its first position. */
  lemma BoundaryByHead(p: string, z: string)
    requires |z| > 0 && forall j :: 1 <= j < |p| ==> p[j] != z[0]
    ensures Boundary(p, z)
  {
    forall j | 1 <= j < |p|
      ensures !Compatible(p[j..], z)
    {
      NotCompatibleAt(p[j..], z, 0);
    }
  }

  /** No occurrence of `p` starts inside `m` when `p`'s first character does
      not occur in `m`. */
  lemma {:induction false} NoneStartsByHead(m: string, p: string)
    requires |p| > 0 && forall i :: 0 <= i < |m| ==> m[i] != p[0]
    ensures NoneStartsIn(m, p)
    decreases |m|
  {
    if m != [] {
      NotCompatibleAt(m, p, 0);
      NoneStartsByHead(m[1..], p);
    }
  }

  /** No placeholder can overlap another occurrence of itself. */
  lemma PlaceholdersBorderFree()
    ensures Boundary(LENS_PLACEHOLDER, LENS_PLACEHOLDER)
    ensures Boundary(SCALAR_PLACEHOLDER, SCALAR_PLACEHOLDER)
    ensures Boundary(BG_SCALER_PLACEHOLDER, BG_SCALER_PLACEHOLDER)
    ensures Boundary(INTERPOLATION_PLACEHOLDER, INTERPOLATION_PLACEHOLDER)
    ensures Boundary(OVERLAY_TEST, OVERLAY_TEST)
  {
    LensPlaceholderBorderFree();
    BoundaryByHead(SCALAR_PLACEHOLDER, SCALAR_PLACEHOLDER);
    BoundaryByHead(BG_SCALER_PLACEHOLDER, BG_SCALER_PLACEHOLDER);
    InterpolationPlaceholderBorderFree();
    BoundaryByHead(OVERLAY_TEST, OVERLAY_TEST);
  }

  lemma LensPlaceholderBorderFree()
    ensures Boundary(LENS_PLACEHOLDER, LENS_PLACEHOLDER)
  {
    forall j | 1 <= j < |LENS_PLACEHOLDER|
      ensures !Compatible(LENS_PLACEHOLDER[j..], LENS_PLACEHOLDER)
    {
      NotCompatibleAt(LENS_PLACEHOLDER[j..], LENS_PLACEHOLDER, if j == 9 then 1 else 0);
    }
  }

  lemma InterpolationPlaceholderBorderFree()
    ensures Boundary(INTERPOLATION_PLACEHOLDER, INTERPOLATION_PLACEHOLDER)
  {
    forall j | 1 <= j < |INTERPOLATION_PLACEHOLDER|
      ensures !Compatible(INTERPOLATION_PLACEHOLDER[j..], INTERPOLATION_PLACEHOLDER)
    {
      NotCompatibleAt(INTERPOLATION_PLACEHOLDER[j..], INTERPOLATION_PLACEHOLDER, if j == 12 then 1 else 0);
    }
  }

  /** The scalar placeholder overlaps no occurrence of the lens placeholder. */
  lemma ScalarPlaceholderApart()
    ensures Inert(LENS_PLACEHOLDER, SCALAR_PLACEHOLDER)
  {
    forall j | 1 <= j < |LENS_PLACEHOLDER|
      ensures !Compatible(LENS_PLACEHOLDER[j..], SCALAR_PLACEHOLDER)
    {
      NotCompatibleAt(LENS_PLACEHOLDER[j..], SCALAR_PLACEHOLDER, if j == 3 || j == 19 then 1 else 0);
    }
    forall i | 0 <= i < |SCALAR_PLACEHOLDER|
      ensures !Compatible(SCALAR_PLACEHOLDER[i..], LENS_PLACEHOLDER)
    {
      NotCompatibleAt(SCALAR_PLACEHOLDER[i..], LENS_PLACEHOLDER, if i == 3 then 1 else 0);
    }
    NoneStartsInSuffixes(SCALAR_PLACEHOLDER, LENS_PLACEHOLDER);
  }

  /** The background-scale placeholder overlaps no occurrence of the
      placeholders replaced before it. */
  lemma BgScalerPlaceholderApart()
    ensures Inert(LENS_PLACEHOLDER, BG_SCALER_PLACEHOLDER) && Inert(SCALAR_PLACEHOLDER, BG_SCALER_PLACEHOLDER)
  {
    LensApartFromBgScaler();
    ScalarApartFromBgScaler();
  }

  lemma LensApartFromBgScaler()
    ensures Inert(LENS_PLACEHOLDER, BG_SCALER_PLACEHOLDER)
  {
    BoundaryByHead(LENS_PLACEHOLDER, BG_SCALER_PLACEHOLDER);
    NoneStartsByHead(BG_SCALER_PLACEHOLDER, LENS_PLACEHOLDER);
  }

  lemma ScalarApartFromBgScaler()
    ensures Inert(SCALAR_PLACEHOLDER, BG_SCALER_PLACEHOLDER)
  {
    BoundaryByHead(SCALAR_PLACEHOLDER, BG_SCALER_PLACEHOLDER);
    NoneStartsByHead(BG_SCALER_PLACEHOLDER, SCALAR_PLACEHOLDER);
  }

  /** The interpolation placeholder overlaps no occurrence of the
      placeholders replaced before it. */
  lemma InterpolationPlaceholderApart()
    ensures Inert(LENS_PLACEHOLDER, INTERPOLATION_PLACEHOLDER)
    ensures Inert(SCALAR_PLACEHOLDER, INTERPOLATION_PLACEHOLDER)
    ensures Inert(BG_SCALER_PLACEHOLDER, INTERPOLATION_PLACEHOLDER)
  {
    LensApartFromInterpolation();
    ScalarApartFromInterpolation();
    BgScalerApartFromInterpolation();
  }

  lemma LensApartFromInterpolation()
    ensures Inert(LENS_PLACEHOLDER, INTERPOLATION_PLACEHOLDER)
  {
    BoundaryByHead(LENS_PLACEHOLDER, INTERPOLATION_PLACEHOLDER);
    NoneStartsByHead(INTERPOLATION_PLACEHOLDER, LENS_PLACEHOLDER);
  }

  lemma ScalarApartFromInterpolation()
    ensures Inert(SCALAR_PLACEHOLDER, INTERPOLATION_PLACEHOLDER)
  {
    BoundaryByHead(SCALAR_PLACEHOLDER, INTERPOLATION_PLACEHOLDER);
    NoneStartsByHead(INTERPOLATION_PLACEHOLDER, SCALAR_PLACEHOLDER);
  }

  lemma BgScalerApartFromInterpolation()
    ensures Inert(BG_SCALER_PLACEHOLDER, INTERPOLATION_PLACEHOLDER)
  {
    BoundaryByHead(BG_SCALER_PLACEHOLDER, INTERPOLATION_PLACEHOLDER);
    NoneStartsByHead(INTERPOLATION_PLACEHOLDER, BG_SCALER_PLACEHOLDER);
  }

  /** The overlay test overlaps no occurrence of the placeholders replaced
      before it. */
  lemma OverlayTestApart()
    ensures Inert(LENS_PLACEHOLDER, OVERLAY_TEST) && Inert(SCALAR_PLACEHOLDER, OVERLAY_TEST)
    ensures Inert(BG_SCALER_PLACEHOLDER, OVERLAY_TEST) && Inert(INTERPOLATION_PLACEHOLDER, OVERLAY_TEST)
  {
    LensApartFromOverlayTest();
    ScalarApartFromOverlayTest();
    BgScalerApartFromOverlayTest();
    InterpolationApartFromOverlayTest();
  }

  lemma LensApartFromOverlayTest()
    ensures Inert(LENS_PLACEHOLDER, OVERLAY_TEST)
  {
    BoundaryByHead(LENS_PLACEHOLDER, OVERLAY_TEST);
    NoneStartsByHead(OVERLAY_TEST, LENS_PLACEHOLDER);
  }

  lemma ScalarApartFromOverlayTest()
    ensures Inert(SCALAR_PLACEHOLDER, OVERLAY_TEST)
  {
    BoundaryByHead(SCALAR_PLACEHOLDER, OVERLAY_TEST);
    NoneStartsByHead(OVERLAY_TEST, SCALAR_PLACEHOLDER);
  }

  lemma BgScalerApartFromOverlayTest()
    ensures Inert(BG_SCALER_PLACEHOLDER, OVERLAY_TEST)
  {
    BoundaryByHead(BG_SCALER_PLACEHOLDER, OVERLAY_TEST);
    forall i | 0 <= i < |OVERLAY_TEST|
      ensures !Compatible(OVERLAY_TEST[i..], BG_SCALER_PLACEHOLDER)
    {
      NotCompatibleAt(OVERLAY_TEST[i..], BG_SCALER_PLACEHOLDER, if i == 0 then 1 else 0);
    }
    NoneStartsInSuffixes(OVERLAY_TEST, BG_SCALER_PLACEHOLDER);
  }

  lemma InterpolationApartFromOverlayTest()
    ensures Inert(INTERPOLATION_PLACEHOLDER, OVERLAY_TEST)
  {
    BoundaryByHead(INTERPOLATION_PLACEHOLDER, OVERLAY_TEST);
    forall i | 0 <= i < |OVERLAY_TEST|
      ensures !Compatible(OVERLAY_TEST[i..], INTERPOLATION_PLACEHOLDER)
    {
      if i == 5 {
        // `bool(params.flags` against `params.interpolation`: they part at `f`/`i`.
        assert OVERLAY_TEST[12] == 'f' && INTERPOLATION_PLACEHOLDER[7] == 'i';
        NotCompatibleAt(OVERLAY_TEST[i..], INTERPOLATION_PLACEHOLDER, 7);
      } else {
        NotCompatibleAt(OVERLAY_TEST[i..], INTERPOLATION_PLACEHOLDER, 0);
      }
    }
    NoneStartsInSuffixes(OVERLAY_TEST, INTERPOLATION_PLACEHOLDER);
  }

  /** An interpolation literal cannot make or complete an interpolation
      placeholder: they share no character. */
  lemma LiteralApartFromInterpolation(interpolation: int)
    ensures Inert(INTERPOLATION_PLACEHOLDER, InterpolationLiteral(interpolation))
  {
    var literal := InterpolationLiteral(interpolation);
    BoundaryByHead(INTERPOLATION_PLACEHOLDER, literal);
    NoneStartsByHead(literal, INTERPOLATION_PLACEHOLDER);
  }

  /** An interpolation literal overlaps no overlay test: the only digit of the
      test is followed by `)`, which no literal holds. */
  lemma LiteralApartFromOverlayTest(interpolation: int)
    ensures Inert(OVERLAY_TEST, InterpolationLiteral(interpolation))
  {
    var literal := InterpolationLiteral(interpolation);
    forall j | 1 <= j < |OVERLAY_TEST|
      ensures !Compatible(OVERLAY_TEST[j..], literal)
    {
      NotCompatibleAt(OVERLAY_TEST[j..], literal, if j == 20 then 1 else 0);
    }
    NoneStartsByHead(literal, OVERLAY_TEST);
  }

  /** The folded `false` cannot make or complete an interpolation placeholder
      or an overlay test. */
  lemma FalseApartFromPlaceholders()
    ensures Inert(INTERPOLATION_PLACEHOLDER, "false") && Inert(OVERLAY_TEST, "false")
  {
    BoundaryByHead(INTERPOLATION_PLACEHOLDER, "false");
    NoneStartsByHead("false", INTERPOLATION_PLACEHOLDER);
    FalseApartFromOverlayTest();
  }

  lemma FalseApartFromOverlayTest()
    ensures Inert(OVERLAY_TEST, "false")
  {
    forall j | 1 <= j < |OVERLAY_TEST|
      ensures !Compatible(OVERLAY_TEST[j..], "false")
    {
      NotCompatibleAt(OVERLAY_TEST[j..], "false", if j == 12 then 1 else 0);
    }
    NoneStartsByHead("false", OVERLAY_TEST);
  }
}
