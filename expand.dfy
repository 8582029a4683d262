/**
  expand_image: compute the canvas geometry, the background colour and the
  output path, allocate the canvas filled with the background, paste the
  source at (x_offset, 0), and report the output path; and the exit code of
  the command-line entry point around it. Opening and saving files are
  outside the model: the decoded source image is a parameter, and whether
  opening and saving succeeded are parameters of the entry point.
 */
module Expand {
  import opened Outcomes
  import opened Geometry
  import opened Background
  import opened Paths
  import opened Raster

  /** Everything expand_image computes before touching pixels. */
  datatype Plan = Plan(width: nat, height: nat, xOffset: int, yOffset: int, background: Pixel, outputPath: string)

  /**
    The pure part of expand_image for a source of the given size and mode.
    It fails for a source of height 0 (the reported source aspect ratio
    divides by the height) and for a negative canvas width (Image.new
    refuses it). sourceRatio is accepted and not used.
   */
  function PlanExpansion(width: nat, height: nat, mode: string, inputPath: string, outputPath: Option<string> := None,
                         targetRatio: Ratio := Ratio(191, 100), paddingColor: string := "black",
                         sourceRatio: Ratio := Ratio(16, 1)): (r: Result<Plan>)
    ensures r.Ok? <==> height > 0 && NewWidth(height, targetRatio) >= 0
    ensures height == 0 ==> r == Err(ZeroHeight)
    ensures height > 0 && NewWidth(height, targetRatio) < 0 ==> r == Err(NegativeWidth(NewWidth(height, targetRatio)))
    ensures r.Ok? ==> r.value.height == height && r.value.yOffset == 0
  {
    if height == 0 then Err(ZeroHeight)
    else
      var newWidth := NewWidth(height, targetRatio);
      if newWidth < 0 then Err(NegativeWidth(newWidth))
      else
        Ok(Plan(newWidth, height, XOffset(newWidth, width), 0,
                BackgroundColor(paddingColor, mode), OutputPath(inputPath, outputPath)))
  }

  /** The expansion fails exactly for a source of height 0 and for height * ratio <= -1. */
  lemma PlanSucceedsIff(width: nat, height: nat, mode: string, inputPath: string, outputPath: Option<string>,
                        targetRatio: Ratio, paddingColor: string, sourceRatio: Ratio)
    ensures PlanExpansion(width, height, mode, inputPath, outputPath, targetRatio, paddingColor, sourceRatio).Ok?
        <==> height > 0 && height * targetRatio.num > -(targetRatio.den as int)
  {
    NewWidthNegativeIff(height, targetRatio);
  }

  /**
    The geometry of a successful plan: the height is kept, the width is the
    truncated product height * ratio (for a non-negative ratio), and the
    source is centred: padded with at most one column more on the right
    when the canvas is wider, cropped with at most one column more on the
    left when it is narrower.
   */
  lemma PlanGeometry(width: nat, height: nat, mode: string, inputPath: string, outputPath: Option<string>,
                     targetRatio: Ratio, paddingColor: string, sourceRatio: Ratio)
    requires PlanExpansion(width, height, mode, inputPath, outputPath, targetRatio, paddingColor, sourceRatio).Ok?
    ensures var p := PlanExpansion(width, height, mode, inputPath, outputPath, targetRatio, paddingColor, sourceRatio).value;
      p.height == height && p.yOffset == 0 &&
      (targetRatio.num >= 0 ==>
        p.width * targetRatio.den <= height * targetRatio.num < (p.width + 1) * targetRatio.den) &&
      (p.width >= width ==>
        0 <= p.xOffset <= p.width - width - p.xOffset <= p.xOffset + 1) &&
      (p.width < width ==>
        p.xOffset < 0 && 0 <= width - p.width + p.xOffset <= -p.xOffset <= width - p.width + p.xOffset + 1)
  {
    var p := PlanExpansion(width, height, mode, inputPath, outputPath, targetRatio, paddingColor, sourceRatio).value;
    if targetRatio.num >= 0 {
      NewWidthTruncates(height, targetRatio);
    }
    if p.width >= width {
      PaddingSplit(p.width, width);
    } else {
      CropSplit(p.width, width);
    }
  }

  /** The background of a successful plan: white or black by the colour name, with an opaque fourth channel for RGBA. */
  lemma PlanColour(width: nat, height: nat, mode: string, inputPath: string, outputPath: Option<string>,
                   targetRatio: Ratio, paddingColor: string, sourceRatio: Ratio)
    requires PlanExpansion(width, height, mode, inputPath, outputPath, targetRatio, paddingColor, sourceRatio).Ok?
    ensures var p := PlanExpansion(width, height, mode, inputPath, outputPath, targetRatio, paddingColor, sourceRatio).value;
      |p.background| == (if mode == "RGBA" then 4 else 3) &&
      (mode == "RGBA" ==> p.background[3] == 255) &&
      p.background[..3] == (if SpellsWhite(paddingColor) then [255, 255, 255] else [0, 0, 0])
  {
    BackgroundWhiteIff(paddingColor, mode);
  }

  /** The output path of a successful plan: the supplied one, or the expanded name in the input's directory. */
  lemma PlanPath(width: nat, height: nat, mode: string, inputPath: string, outputPath: Option<string>,
                 targetRatio: Ratio, paddingColor: string, sourceRatio: Ratio)
    requires PlanExpansion(width, height, mode, inputPath, outputPath, targetRatio, paddingColor, sourceRatio).Ok?
    ensures var p := PlanExpansion(width, height, mode, inputPath, outputPath, targetRatio, paddingColor, sourceRatio).value;
      (outputPath.Some? ==> p.outputPath == outputPath.value) &&
      (outputPath.None? ==>
        Parent(Parse(p.outputPath)) == Parent(Parse(inputPath)) &&
        Name(Parse(p.outputPath)) == ExpandedName(Name(Parse(inputPath))))
  {
    if outputPath.None? {
      DefaultOutputInSameDirectory(inputPath);
    }
  }

  /**
    With the default arguments (no output path, ratio 1.91, black), a source
    of positive height gets a canvas of width trunc(height * 1.91) filled with
    black, and the output goes to the default path next to the input.
   */
  lemma PlanDefaults(width: nat, height: nat, mode: string, inputPath: string)
    requires height > 0
    ensures var r := PlanExpansion(width, height, mode, inputPath);
      r.Ok? && r.value.width * 100 <= height * 191 < (r.value.width + 1) * 100 &&
      r.value.background[..3] == [0, 0, 0] && r.value.outputPath == DefaultOutputPath(inputPath)
  {
    NewWidthTruncates(height, Ratio(191, 100));
    BackgroundWhiteIff("black", mode);
  }

  /** The source ratio has no influence on the result. */
  lemma SourceRatioIgnored(width: nat, height: nat, mode: string, inputPath: string, outputPath: Option<string>,
                           targetRatio: Ratio, paddingColor: string, sourceRatio1: Ratio, sourceRatio2: Ratio)
    ensures PlanExpansion(width, height, mode, inputPath, outputPath, targetRatio, paddingColor, sourceRatio1)
         == PlanExpansion(width, height, mode, inputPath, outputPath, targetRatio, paddingColor, sourceRatio2)
  {
  }

  /**
    Expanding an expanded image again with the same ratio changes nothing:
    the width depends on the height alone, so the second canvas has the
    width of the first and the image is pasted at offset 0.
   */
  lemma ExpandAgainIsFixedPoint(width: nat, height: nat, mode: string, inputPath: string, outputPath: Option<string>,
                                targetRatio: Ratio, paddingColor: string, sourceRatio: Ratio,
                                inputPath2: string, outputPath2: Option<string>, row: seq<Pixel>)
    requires PlanExpansion(width, height, mode, inputPath, outputPath, targetRatio, paddingColor, sourceRatio).Ok?
    ensures var p := PlanExpansion(width, height, mode, inputPath, outputPath, targetRatio, paddingColor, sourceRatio).value;
      var q := PlanExpansion(p.width, height, mode, inputPath2, outputPath2, targetRatio, paddingColor, sourceRatio);
      q.Ok? && q.value.width == p.width && q.value.xOffset == 0 &&
      (|row| == p.width ==> PastedRow(row, q.value.background, q.value.width, q.value.xOffset) == row)
  {
    var p := PlanExpansion(width, height, mode, inputPath, outputPath, targetRatio, paddingColor, sourceRatio).value;
    var q := PlanExpansion(p.width, height, mode, inputPath2, outputPath2, targetRatio, paddingColor, sourceRatio);
    assert q.value.width == p.width;
    if |row| == p.width {
      PastedRowSameWidth(row, q.value.background);
    }
  }

  /**
    The run of example.py: a 1600 x 100 banner and the ratio 1.91 give a
    canvas of 191 columns, narrower than the banner, that shows only its
    source columns 705 to 895 and no background.
   */
  lemma BannerScenario(mode: string, inputPath: string, outputPath: Option<string>, paddingColor: string, sourceRatio: Ratio)
    ensures var r := PlanExpansion(1600, 100, mode, inputPath, outputPath, Ratio(191, 100), paddingColor, sourceRatio);
      r.Ok? && r.value.width == 191 && r.value.height == 100 && r.value.xOffset == -705 &&
      forall row :: |row| == 1600 ==> PastedRow(row, r.value.background, 191, -705) == row[705..896]
  {
    assert NewWidth(100, Ratio(191, 100)) == TruncDiv(19100, 100) == 191;
    assert XOffset(191, 1600) == -705;
    var r := PlanExpansion(1600, 100, mode, inputPath, outputPath, Ratio(191, 100), paddingColor, sourceRatio);
    forall row | |row| == 1600
      ensures PastedRow(row, r.value.background, 191, -705) == row[705..896]
    {
      PastedRowCrops(row, r.value.background, 191);
    }
  }

  /**
    A 100 x 100 square and the ratio 1.91 give a canvas of 191 columns that
    shows 45 background columns, the whole source row, and 46 background
    columns.
   */
  lemma SquareScenario(mode: string, inputPath: string, outputPath: Option<string>, paddingColor: string, sourceRatio: Ratio)
    ensures var r := PlanExpansion(100, 100, mode, inputPath, outputPath, Ratio(191, 100), paddingColor, sourceRatio);
      r.Ok? && r.value.width == 191 && r.value.xOffset == 45 &&
      forall row :: |row| == 100 ==>
        PastedRow(row, r.value.background, 191, 45) == Repeat(r.value.background, 45) + row + Repeat(r.value.background, 46)
  {
    assert NewWidth(100, Ratio(191, 100)) == TruncDiv(19100, 100) == 191;
    assert XOffset(191, 100) == 45;
    var r := PlanExpansion(100, 100, mode, inputPath, outputPath, Ratio(191, 100), paddingColor, sourceRatio);
    forall row | |row| == 100
      ensures PastedRow(row, r.value.background, 191, 45) == Repeat(r.value.background, 45) + row + Repeat(r.value.background, 46)
    {
      PastedRowPads(row, r.value.background, 191);
    }
  }

  /** The result of expand_image: the new image and the path it is saved to. */
  datatype Expanded = Expanded(image: Image, path: string)

  /**
    expand_image on a decoded source: fails as the plan fails; otherwise a
    fresh image of the source's mode, the planned width and the source's
    height, in which column x of every row shows the source column
    x - x_offset of the same row where that exists, and the background
    colour elsewhere.
   */
  method ExpandImage(src: Image, inputPath: string, outputPath: Option<string> := None,
                     targetRatio: Ratio := Ratio(191, 100), paddingColor: string := "black",
                     sourceRatio: Ratio := Ratio(16, 1)) returns (r: Result<Expanded>)
    ensures var plan := PlanExpansion(src.Width(), src.Height(), src.mode, inputPath, outputPath, targetRatio, paddingColor, sourceRatio);
      (r.Err? <==> plan.Err?) && (r.Err? ==> r.error == plan.error)
    ensures var plan := PlanExpansion(src.Width(), src.Height(), src.mode, inputPath, outputPath, targetRatio, paddingColor, sourceRatio);
      r.Ok? ==>
        var p := plan.value;
        var out := r.value.image;
        fresh(out) && fresh(out.pixels) &&
        out.mode == src.mode && out.Width() == p.width && out.Height() == src.Height() &&
        r.value.path == p.outputPath &&
        (forall x, y :: 0 <= x < out.Width() && 0 <= y < out.Height() ==>
          out.pixels[x, y] == (if 0 <= x - p.xOffset < src.Width() then src.pixels[x - p.xOffset, y] else p.background)) &&
        (forall y :: 0 <= y < out.Height() ==> out.Row(y) == PastedRow(src.Row(y), p.background, p.width, p.xOffset))
  {
    var plan := PlanExpansion(src.Width(), src.Height(), src.mode, inputPath, outputPath, targetRatio, paddingColor, sourceRatio);
    if plan.Err? {
      return Err(plan.error);
    }
    var canvas := Compose(src, plan.value);
    r := Ok(Expanded(canvas, plan.value.outputPath));
  }

  /**
    Image.new followed by paste, for a plan that keeps the source's height:
    a fresh canvas of the planned width filled with the background, with
    the source pasted at (x_offset, 0).
   */
  method Compose(src: Image, p: Plan) returns (canvas: Image)
    requires p.height == src.Height() && p.yOffset == 0
    ensures fresh(canvas) && fresh(canvas.pixels)
    ensures canvas.mode == src.mode && canvas.Width() == p.width && canvas.Height() == src.Height()
    ensures forall x, y :: 0 <= x < canvas.Width() && 0 <= y < canvas.Height() ==>
      canvas.pixels[x, y] == (if 0 <= x - p.xOffset < src.Width() then src.pixels[x - p.xOffset, y] else p.background)
    ensures forall y :: 0 <= y < canvas.Height() ==> canvas.Row(y) == PastedRow(src.Row(y), p.background, p.width, p.xOffset)
  {
    canvas := new Image.New(src.mode, p.width, p.height, p.background);
    canvas.Paste(src, p.xOffset, p.yOffset);
    RowsArePasted(canvas, src, p.background, p.xOffset);
  }

  /** The command line after argparse: the positional input and the options. */
  datatype CliArgs = CliArgs(input: string, output: Option<string>, color: string, targetRatio: Ratio, sourceRatio: Ratio)

  /** The values argparse accepts for --color. */
  predicate ColorChoice(c: string)
  {
    c == "black" || c == "white"
  }

  /**
    main's exit status. argparse rejects a colour outside its choices with
    status 2; a missing input file, an image that cannot be opened, an
    expansion that raises or a save that fails give 1; success gives 0.
    inputExists, decoded and saved stand for the file system.
   */
  method RunCli(args: CliArgs, inputExists: bool, decoded: Option<Image>, saved: bool) returns (code: int)
    ensures code == 0 || code == 1 || code == 2
    ensures code == 2 <==> !ColorChoice(args.color)
    ensures code == 0 <==>
      ColorChoice(args.color) && inputExists && decoded.Some? && saved &&
      PlanExpansion(decoded.value.Width(), decoded.value.Height(), decoded.value.mode, args.input, args.output,
                    args.targetRatio, args.color, args.sourceRatio).Ok?
  {
    if !ColorChoice(args.color) {
      return 2;
    }
    if !inputExists {
      return 1;
    }
    if decoded.None? {
      return 1;
    }
    var r := ExpandImage(decoded.value, args.input, args.output, args.targetRatio, args.color, args.sourceRatio);
    if r.Err? || !saved {
      return 1;
    }
    return 0;
  }

  /** Through the command line the colour is one of the two choices, and white is chosen by "white" alone. */
  lemma CliColour(args: CliArgs, mode: string)
    requires ColorChoice(args.color)
    ensures BackgroundColor(args.color, mode)[..3] == (if args.color == "white" then [255, 255, 255] else [0, 0, 0])
  {
    BackgroundWhiteIff(args.color, mode);
  }
}
