/** The four kinds of maze cell (EFloor) and their one-character glyphs. */
module Floors {
  import opened Wrappers

  datatype Floor = Normal | Wall | Start | Goal

  /** The only characters a maze text may hold, apart from line breaks. */
  const Glyphs: set<char> := {' ', '*', 'o', 'x'}

  /** EFloor.to_char: every kind is drawn by a glyph, never by a line break. */
  function ToChar(f: Floor): (c: char)
    ensures c in Glyphs && c != '\n'
  {
    match f
    case Normal => ' '
    case Wall => '*'
    case Start => 'o'
    case Goal => 'x'
  }

  /** EFloor.of: reading a glyph back, or None for any other character
      (the original raises "Invalid character"). */
  function Of(c: char): (r: Option<Floor>)
    ensures r.Some? <==> c in Glyphs
    ensures r.Some? ==> ToChar(r.value) == c
  {
    if c == ' ' then Some(Normal)
    else if c == '*' then Some(Wall)
    else if c == 'o' then Some(Start)
    else if c == 'x' then Some(Goal)
    else None
  }

  /** Reading the glyph of a kind gives the kind back, so the glyph table is
      a bijection between the four kinds and the four glyphs. */
  lemma GlyphRoundTrip(f: Floor, g: Floor)
    ensures Of(ToChar(f)) == Some(f)
    ensures ToChar(f) == ToChar(g) <==> f == g
  {
  }
}
