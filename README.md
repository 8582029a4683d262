# expand-images, modelled in Dafny

A model of `expand_image` from the image aspect-ratio expander. `expand_image` takes an image of width W and height H. It builds a canvas of height H whose width is `int(H * target_ratio)`. It fills that canvas with black or white, pastes the source at `x_offset = (new_width - W) // 2` on row 0, and returns the output path. With no output path, the result goes next to the input as `stem + "_expanded" + suffix`. The model also covers the exit codes of the command-line entry point `main`.

Modules, one per concern of the source function:

- `Geometry` (`geometry.dfy`): the canvas width as a truncating division, and the offset as a floor division by 2. The target ratio is an exact fraction `num/den`.
- `Background` (`background.dfy`): the choice of the background colour from the colour name and the image mode.
- `Paths` (`paths.dfy`): the default output path. POSIX `pathlib` parsing is modelled too: the root, the parts, `name`, `parent`, `stem` and `suffix`.
- `Raster` (`raster.dfy`): the `Image` class over an `array2` of pixels. `Image.New` fills a fresh buffer in a loop. `Image.Paste` overwrites the clipped rectangle the source covers, also in a loop. `PastedRow` is the specification of one resulting row.
- `Expand` (`expand.dfy`): `PlanExpansion` is the pure part of `expand_image` with its error cases. `ExpandImage` is the whole operation on a decoded image. `RunCli` gives `main`'s exit code.
- `Outcomes` (`outcomes.dfy`): `Option` and `Result`. Python's exceptions become `Err` values.

Behaviour the model makes explicit:

- The width is truncated, not rounded. A negative ratio truncates toward zero as well.
- A target narrower than the source is not an error. The source is cropped to its centre, and the left side loses at most one column more than the right. The run in `example.py` is such a case: a 1600 × 100 banner at ratio 1.91 becomes 191 × 100 and shows only source columns 705 to 895 (`BannerScenario`). No padding is added at all. This contradicts the module docstring, which says the image is expanded "by adding padding on the sides".
- A wider target is padded. The right padding is at least the left padding and at most one column more.
- Expanding an expanded image again with the same ratio changes nothing (`ExpandAgainIsFixedPoint`), because the width depends only on the height. Running the tool twice therefore does not widen the image again.
- Only the solid-colour strategy exists. There is no edge-extend or blur code, and `source_ratio` is never read.
- Apart from opening, decoding and saving, which are left out, and for RGB and RGBA sources whose canvas width fits PIL's size limit, the only failures are these two. A source of height 0 fails, because the aspect-ratio report on line 38 divides by the height. A negative canvas width fails, because PIL's `Image.new` raises `ValueError`, and that happens only when `H * ratio <= -1`.

## Model

| member | source | states |
|---|---|---|
| `Geometry.TruncDiv` | expand_image.py:44 | The quotient truncates toward zero: for a non-negative dividend, `q*b <= a < q*b + b`; for a negative one, `q*b - b < a <= q*b <= 0`. |
| `Geometry.FloorHalf` | expand_image.py:63 | `// 2` is floor division: `2q <= a <= 2q + 1`, also for negative `a`. |
| `Geometry.NewWidth` | expand_image.py:43-44 | `new_width = int(H * target_ratio)`; its meaning is given by `NewWidthTruncates` (truncation, not rounding) and `NewWidthNegativeIff` (negative exactly when `H * ratio <= -1`). |
| `Geometry.XOffset` | expand_image.py:63 | `x_offset = (new_width - W) // 2`; its meaning is given by `PaddingSplit` and `CropSplit` (centring, with the extra column on the right when padding and on the left when cropping). |
| `Geometry.NewWidthTruncates` | expand_image.py:43-44 | For a non-negative ratio the width is the truncation of `H * ratio`: `w*den <= H*num < (w+1)*den`. |
| `Geometry.NewWidthNegativeIff` | expand_image.py:44 | The width is negative exactly when `H * num <= -den`, i.e. `H * ratio <= -1`. |
| `Geometry.PaddingSplit` | expand_image.py:63 | When the canvas is at least as wide as the source: left = x_offset ≥ 0, right = rest, left + W + right = new width, right − left ∈ {0, 1}. |
| `Geometry.CropSplit` | expand_image.py:63 | When the canvas is narrower: x_offset < 0, and the columns cut on the left exceed those cut on the right by 0 or 1; together with the canvas width they make up W. |
| `Background.Lower` | expand_image.py:50 | Lower-casing keeps the length and maps every character through `LowerChar`. |
| `Background.LowerIsWhiteIff` | expand_image.py:50 | `Lower(s) == "white"` holds exactly when `s` is "white" in some mixture of cases. |
| `Background.BackgroundColor` | expand_image.py:49-57 | The colour has 4 components for mode "RGBA" and 3 otherwise; for RGBA the fourth is 255. |
| `Background.BackgroundWhiteIff` | expand_image.py:50-57 | The colour channels are (255, 255, 255) when the name spells "white" in any case, and (0, 0, 0) for every other name. |
| `Paths.Parse` | expand_image.py:71-72 | `Path(s)` on POSIX: the root and the parts; `ParseWellFormed` shows every parsed path has a valid root and only non-empty parts other than "." without '/'. |
| `Paths.Render` | expand_image.py:72 | `str(path)`; `ParseRender` shows that parsing the rendering of a well-formed path gives it back. |
| `Paths.Name` | expand_image.py:72 | `path.name`, the last part; `DefaultOutputInSameDirectory` shows the default output's name is the expanded input name. |
| `Paths.Parent` | expand_image.py:72 | `path.parent`, the path without its last part; `DefaultOutputInSameDirectory` shows the default output has the input's parent. |
| `Paths.Suffix` | expand_image.py:72 | `path.suffix`; `StemSuffix`, `ExpandedNameKeepsSuffix`, `ExpandedNameWithoutSuffix` and `ExpandedNameAfterFinalDot` give its behaviour. |
| `Paths.Stem` | expand_image.py:72 | `path.stem`; `StemSuffix` shows that the stem followed by the suffix is the name. |
| `Paths.ExpandedName` | expand_image.py:72 | `f"{stem}_expanded{suffix}"`; its behaviour is given by `ExpandedNameKeepsSuffix`, `ExpandedNameWithoutSuffix`, `ExpandedNameAfterFinalDot` and `ExpandedNameIsComponent`. |
| `Paths.ExpandedNameIsComponent` | expand_image.py:72 | The expanded name of an empty name or a path component is itself a path component: non-empty, not ".", and free of '/'. |
| `Paths.DefaultOutputPath` | expand_image.py:70-72 | `str(input.parent / f"{stem}_expanded{suffix}")`; `DefaultOutputInSameDirectory` shows that it parses back to the input's parent and the expanded name. |
| `Paths.OutputPath` | expand_image.py:70-72 | A supplied output path is returned unchanged. |
| `Paths.LastIndexOf` | expand_image.py:72 | `rfind`: the index holds the character and no later index does; -1 means the character is absent. |
| `Paths.StemSuffix` | expand_image.py:72 | `stem + suffix` gives back the file name. |
| `Paths.ExpandedNameKeepsSuffix` | expand_image.py:72 | If the name has a suffix, the new name has the same suffix, and its stem is the old stem followed by "_expanded". |
| `Paths.ExpandedNameWithoutSuffix` | expand_image.py:72 | A name with no suffix and no final dot gets "_expanded" appended, and the new name still has no suffix. |
| `Paths.ExpandedNameAfterFinalDot` | expand_image.py:72 | A name of two or more characters ending in a dot has no suffix, but its expanded name `name + "_expanded"` has the suffix "._expanded". |
| `Paths.ParseWellFormed` | expand_image.py:71 | Every parsed path has a root of "", "/" or "//" and parts that are non-empty, not ".", and free of '/'. |
| `Paths.ParseRender` | expand_image.py:71-72 | Rendering a well-formed path and parsing it again gives back the same root and parts. |
| `Paths.DefaultOutputInSameDirectory` | expand_image.py:70-72 | The default output path parses to the input's parent directory, and its name is `stem + "_expanded" + suffix` of the input's name. |
| `Raster.PastedRow` | expand_image.py:60-67 | One row of the canvas after the paste; its meaning is given by `PastedRowPads`, `PastedRowCrops` and `PastedRowSameWidth`, and `Raster.RowsArePasted` ties it to the pixels of `Image.Paste`. |
| `Raster.RowsArePasted` | expand_image.py:60-67 | An image whose pixels are the shifted source over the background has, row by row, the `PastedRow` of the source row. |
| `Raster.PastedRowPads` | expand_image.py:60-67 | On a canvas at least as wide as the source, a row is: x_offset background pixels, the whole source row unchanged, then the remaining background pixels. |
| `Raster.PastedRowCrops` | expand_image.py:60-67 | On a narrower canvas, a row is exactly the centred slice `src[cut..cut+width]` with `cut = -x_offset`, and it holds no background. |
| `Raster.PastedRowSameWidth` | expand_image.py:63-67 | On a canvas of the source's own width, the offset is 0 and the row comes back unchanged. |
| `Raster.Image.New` | expand_image.py:60 | `Image.new` returns a fresh buffer with the given mode and size in which every pixel is the background colour. |
| `Raster.Image.Paste` | expand_image.py:67 | Every canvas pixel covered by the shifted source gets the source pixel. Every other pixel keeps its old value. Source pixels outside the canvas are dropped. |
| `Expand.PlanExpansion` | expand_image.py:35-72 | Succeeds exactly when H > 0 and the truncated width is non-negative. Height 0 gives `ZeroHeight`, checked first. A negative width gives `NegativeWidth` carrying that width. Success keeps the height and has vertical offset 0. |
| `Expand.PlanSucceedsIff` | expand_image.py:38-60 | The expansion succeeds exactly when H > 0 and `H * num > -den`, i.e. unless the height is 0 or `H * ratio <= -1`. |
| `Expand.PlanGeometry` | expand_image.py:43-64 | For a successful plan: the height is kept, the width is truncated, and the source is centred (the padding and crop balances above). |
| `Expand.PlanColour` | expand_image.py:49-60 | For a successful plan, the background channels are (255, 255, 255) when the name spells "white" in any case and (0, 0, 0) otherwise. RGBA gets a fourth channel of 255. |
| `Expand.PlanPath` | expand_image.py:69-72 | For a successful plan, a supplied path is kept. Otherwise the output path lies in the input's directory under the expanded name. |
| `Expand.PlanDefaults` | expand_image.py:13-18 | With the default arguments (no output path, ratio 1.91, colour "black") and a positive height: success, width `w` with `w*100 <= H*191 < (w+1)*100`, black channels, and the default output path. |
| `Expand.SourceRatioIgnored` | expand_image.py:13-78 | Any two source ratios give the same result. |
| `Expand.ExpandAgainIsFixedPoint` | expand_image.py:43-67 | Expanding the result again with the same ratio gives a canvas of the same width at offset 0, which reproduces every row unchanged. |
| `Expand.BannerScenario` | example.py:60-62 | 1600 × 100 at ratio 1.91 gives a 191 × 100 canvas at offset −705 that shows source columns 705 to 895 of every row. |
| `Expand.SquareScenario` | expand_image.py:43-67 | 100 × 100 at ratio 1.91 gives a 191-column canvas: 45 background columns, the source row, then 46 background columns. |
| `Expand.ExpandImage` | expand_image.py:33-78 | Fails exactly as the plan fails. Otherwise it returns a fresh image with the source's mode, the planned width and the source's height. Pixel (x, y) is source pixel (x − x_offset, y) where that column exists, and the background colour elsewhere. Each row equals `PastedRow` of the source row, and the planned output path is returned. |
| `Expand.Compose` | expand_image.py:60-67 | Creating the canvas and pasting at (x_offset, 0) gives a fresh image of the planned width and the source's height and mode. Each pixel is the shifted source pixel where one exists and the background elsewhere, and each row equals `PastedRow` of the source row. |
| `Expand.ColorChoice` | expand_image.py:94-99 | argparse's `choices=["black", "white"]`; `RunCli` exits with 2 exactly when it fails, and `CliColour` shows that within it only "white" gives white. |
| `Expand.RunCli` | expand_image.py:113-131 | The exit code is 2 exactly when the colour is not one of argparse's choices. It is 0 exactly when the colour is valid, the input exists and opens, the expansion succeeds and the save succeeds. Every other case gives 1. |
| `Expand.CliColour` | expand_image.py:94-99 | Through the command line, the colour is white exactly for "white" and black for "black". |

## Left out

- Opening, decoding, saving and printing (expand_image.py:34, 37-38, 46-47, 75-76) are left out. `ExpandImage` receives the decoded image. `RunCli` receives whether the input exists, the decoded image (or none when opening fails) and whether the save succeeds. The print on line 38 is modelled only through its division by the height.
- `TruncDiv`, `NewWidth`: the target ratio is an exact fraction, so floating-point rounding of values such as 1.91 is not modelled. Neither are the errors `int()` raises for NaN and infinity.
- `Lower`: only ASCII capitals are lower-cased, whereas Python's `str.lower` maps all of Unicode. This does not change whether the result equals "white": no non-ASCII character lower-cases to one of its five letters.
- `BackgroundColor`: PIL modes other than RGB and RGBA are not distinguished; every other mode gets the three-component tuple. For one-band modes such as "1", "L", "I" or "F" and two-band modes such as "LA", `Image.new` refuses a three-component fill colour and raises, so `expand_image` fails and `main` returns 1. The model's `PlanExpansion`, `ExpandImage` and `RunCli` succeed there, so their success for those modes is not the program's. For "P", PIL turns the tuple into a palette entry, which is not modelled either.
- `PlanExpansion`, `ExpandImage`, `RunCli`: PIL's `Image.new` reads the canvas size as C `int`s, so a canvas width of 2^31 or more raises `OverflowError` (and a large canvas can fail to be allocated). The model has unbounded widths and succeeds there.
- `Image.Paste` models only PIL's paste of an image without a mask onto a different image, by its clipping rule. PIL's internal implementation, masks and pasting an image onto itself are not modelled.
- `RunCli`: whether the save succeeds is the free parameter `saved`, so `RunCli` can return 0 where `main` cannot. PIL's `Image.save` picks the file format from the extension of the output path and raises for an empty or unknown one. An input without a suffix, such as `photo`, run without `-o`, gets the default output `photo_expanded`, which has no extension; so does a name ending in a dot (`a.` gives `a._expanded`, whose extension "._expanded" is unknown). `main` returns 1 on every such run. A truncated input file can likewise fail only when `paste` decodes it on line 67; the model treats decoding as all-or-nothing.
- `RunCli`: argparse's own failures other than an invalid `--color` are not modelled (an unparsable number, an unknown option, `--help`). The parsed arguments are given as values.
- `Paths`: only POSIX paths are modelled; Windows paths are left out. The suffix rule is that of pathlib up to Python 3.13: the last dot, provided it is neither the first nor the last character of the name. Later Python versions may count a single final dot as a suffix, and `ExpandedNameAfterFinalDot` then describes the older rule only.
- `example.py`'s sample-image drawing (gradient, text, border) is left out. It has no logic beyond calling `expand_image`; only its 1600 × 100, ratio 1.91 call is kept, in `BannerScenario`.
- Edge-extension and blurred padding are not modelled, because the code has no such strategy.
