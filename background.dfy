/**
  The choice of the canvas colour in expand_image: white when the padding
  colour, lower-cased, is "white", black for every other string; a fourth,
  fully opaque alpha component is added for RGBA images.
 */
module Background {

  /** One pixel: its channel values, three for RGB, four for RGBA. */
  type Pixel = seq<int>

  /** Lower-casing of one character; only the ASCII capitals are mapped. */
  function LowerChar(c: char): char
  {
    if 'A' <= c <= 'Z' then (c as int + 32) as char else c
  }

  /** str.lower(), character by character. */
  function Lower(s: string): (r: string)
    ensures |r| == |s|
    ensures forall i :: 0 <= i < |s| ==> r[i] == LowerChar(s[i])
  {
    if s == [] then [] else [LowerChar(s[0])] + Lower(s[1..])
  }

  /** A spelling of "white" in any mixture of upper and lower case. */
  predicate SpellsWhite(s: string)
  {
    |s| == 5 && forall i :: 0 <= i < 5 ==> s[i] == "white"[i] || s[i] == "WHITE"[i]
  }

  /** The lower-cased colour name is "white" exactly for the case variants of "white". */
  lemma LowerIsWhiteIff(s: string)
    ensures Lower(s) == "white" <==> SpellsWhite(s)
  {
  }

  /** bg_color for a padding colour name and an image mode. */
  function BackgroundColor(paddingColor: string, mode: string): (c: Pixel)
    ensures |c| == (if mode == "RGBA" then 4 else 3)
    ensures mode == "RGBA" ==> c[3] == 255
  {
    var v := if Lower(paddingColor) == "white" then 255 else 0;
    if mode == "RGBA" then [v, v, v, 255] else [v, v, v]
  }

  /** The colour channels are all 255 when the name spells "white" and all 0 otherwise; there is no third colour. */
  lemma BackgroundWhiteIff(paddingColor: string, mode: string)
    ensures var c := BackgroundColor(paddingColor, mode);
      (SpellsWhite(paddingColor) ==> c[..3] == [255, 255, 255]) &&
      (!SpellsWhite(paddingColor) ==> c[..3] == [0, 0, 0])
  {
    LowerIsWhiteIff(paddingColor);
  }
}
