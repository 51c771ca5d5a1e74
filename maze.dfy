/**
 * The maze and its text format (class Maze): a grid of floor kinds indexed
 * [row][column], rows possibly of different lengths, with the start and goal
 * coordinates found by scanning the grid. Parsing validates the markers,
 * splits the text into lines and maps every character to a kind; rendering
 * draws every kind and joins the rows with line breaks.
 */
module MazeText {
  import opened Wrappers
  import opened Geometry
  import opened Floors

  type Grid = seq<seq<Floor>>

  datatype Maze = Maze(floor: Grid, start: Point, goal: Point)

  /** Why a text is not a maze: a missing marker, or a character that is no glyph. */
  datatype ParseError = MissingStart | MissingGoal | InvalidCharacter(c: char)

  // ---------------------------------------------------------------- lines

  /** The lines of a text, split at '\n' only. As with str.splitlines, a line
      break that ends the text does not open a further, empty line. */
  function SplitLines(s: string): (lines: seq<string>)
    ensures forall i :: 0 <= i < |lines| ==> '\n' !in lines[i]
    ensures lines == [] <==> s == []
  {
    if s == [] then []
    else if s[0] == '\n' then [[]] + SplitLines(s[1..])
    else
      var rest := SplitLines(s[1..]);
      if rest == [] then [[s[0]]] else [[s[0]] + rest[0]] + rest[1..]
  }

  /** Lines joined with the separator "\n" between consecutive lines. */
  function Join(lines: seq<string>): (text: string)
    ensures lines != [] ==> lines[0] <= text
    ensures |lines| > 1 ==> lines[0] + "\n" <= text
  {
    if |lines| == 0 then []
    else if |lines| == 1 then lines[0]
    else lines[0] + "\n" + Join(lines[1..])
  }

  lemma {:induction false} SplitAfterLine(l: string, t: string)
    requires '\n' !in l
    ensures SplitLines(l + "\n" + t) == [l] + SplitLines(t)
    decreases |l|
  {
    if l == [] {
      assert l + "\n" + t == "\n" + t;
      assert ("\n" + t)[1..] == t;
    } else {
      var s := l + "\n" + t;
      assert s[0] == l[0];
      assert s[1..] == l[1..] + "\n" + t;
      SplitAfterLine(l[1..], t);
      assert [l[0]] + l[1..] == l;
    }
  }

  lemma {:induction false} SplitOneLine(l: string)
    requires '\n' !in l && l != []
    ensures SplitLines(l) == [l]
    decreases |l|
  {
    assert l[0] != '\n' && [l[0]] + l[1..] == l;
    if |l| == 1 {
      assert SplitLines(l[1..]) == [];
      assert l == [l[0]];
      assert SplitLines(l) == [[l[0]]];
    } else {
      SplitOneLine(l[1..]);
      assert SplitLines(l[1..])[1..] == [];
    }
  }

  /** Splitting joined lines gives the lines back, as long as none of them
      holds a line break and the last one is not empty. */
  lemma {:induction false} SplitJoin(lines: seq<string>)
    requires forall i :: 0 <= i < |lines| ==> '\n' !in lines[i]
    requires lines == [] || lines[|lines| - 1] != []
    ensures SplitLines(Join(lines)) == lines
    decreases |lines|
  {
    if |lines| == 1 {
      SplitOneLine(lines[0]);
    } else if |lines| > 1 {
      SplitJoin(lines[1..]);
      SplitAfterLine(lines[0], Join(lines[1..]));
      assert [lines[0]] + lines[1..] == lines;
    }
  }

  lemma {:induction false} JoinExtendsFirst(c: char, lines: seq<string>)
    requires lines != []
    ensures Join([[c] + lines[0]] + lines[1..]) == [c] + Join(lines)
  {
    var ext := [[c] + lines[0]] + lines[1..];
    assert ext[0] == [c] + lines[0];
    if |lines| > 1 {
      assert ext[1..] == lines[1..];
    }
  }

  /** Joining the lines of a text gives the text back, without the line
      break that ended it, if any. */
  lemma {:induction false} JoinSplit(s: string)
    ensures Join(SplitLines(s)) == if s != [] && s[|s| - 1] == '\n' then s[..|s| - 1] else s
    decreases |s|
  {
    if s != [] {
      var rest := SplitLines(s[1..]);
      JoinSplit(s[1..]);
      if s[0] == '\n' {
        if rest != [] {
          assert ([[]] + rest)[1..] == rest;
          assert s == [s[0]] + s[1..];
        }
      } else if rest != [] {
        JoinExtendsFirst(s[0], rest);
        assert s == [s[0]] + s[1..];
      }
    }
  }

  /** A joined text holds exactly the characters of its lines, plus the
      separator when there are two lines or more. */
  lemma {:induction false} JoinChars(lines: seq<string>, c: char)
    ensures c in Join(lines) <==>
      (c == '\n' && |lines| > 1) || exists i :: 0 <= i < |lines| && c in lines[i]
    decreases |lines|
  {
    if |lines| > 1 {
      JoinChars(lines[1..], c);
      if exists i :: 0 <= i < |lines[1..]| && c in lines[1..][i] {
        var i :| 0 <= i < |lines[1..]| && c in lines[1..][i];
        assert c in lines[i + 1];
      }
      if exists i :: 0 <= i < |lines| && c in lines[i] {
        var i :| 0 <= i < |lines| && c in lines[i];
        if i > 0 {
          assert c in lines[1..][i - 1];
        }
      }
    }
  }

  /** A character other than a line break is in a text exactly when it is
      in one of its lines. */
  lemma LineChars(s: string, c: char)
    requires c != '\n'
    ensures c in s <==> exists i :: 0 <= i < |SplitLines(s)| && c in SplitLines(s)[i]
  {
    JoinSplit(s);
    JoinChars(SplitLines(s), c);
    if s != [] && s[|s| - 1] == '\n' {
      assert s == s[..|s| - 1] + [s[|s| - 1]];
    }
  }

  // --------------------------------------------------------------- glyphs

  /** One line read as floor kinds; on failure, the first character that is
      not a glyph. */
  function ParseRow(line: string): (r: Result<seq<Floor>, char>)
    ensures r.Ok? <==> forall j :: 0 <= j < |line| ==> line[j] in Glyphs
    ensures r.Ok? ==>
      |r.value| == |line| &&
      forall j :: 0 <= j < |line| ==> ToChar(r.value[j]) == line[j]
    ensures r.Err? ==>
      exists k :: 0 <= k < |line| && line[k] == r.error &&
        r.error !in Glyphs && forall j :: 0 <= j < k ==> line[j] in Glyphs
  {
    if line == [] then Ok([])
    else
      match Of(line[0])
      case None => Err(line[0])
      case Some(f) =>
        match ParseRow(line[1..])
        case Err(c) => Err(c)
        case Ok(fs) => Ok([f] + fs)
  }

  /** Every line read as floor kinds (the nested comprehension of Maze.parse);
      on failure, the first character, row by row, that is not a glyph. */
  function ParseGrid(lines: seq<string>): (r: Result<Grid, char>)
    ensures r.Ok? <==> forall i, j :: 0 <= i < |lines| && 0 <= j < |lines[i]| ==> lines[i][j] in Glyphs
    ensures r.Ok? ==>
      |r.value| == |lines| &&
      forall i :: 0 <= i < |lines| ==>
        |r.value[i]| == |lines[i]| &&
        forall j :: 0 <= j < |lines[i]| ==> ToChar(r.value[i][j]) == lines[i][j]
    ensures r.Err? ==> r.error !in Glyphs && exists i :: 0 <= i < |lines| && r.error in lines[i]
    ensures r.Err? ==>
      exists i :: 0 <= i < |lines| && ParseRow(lines[i]) == Err(r.error) &&
        forall k :: 0 <= k < i ==> ParseRow(lines[k]).Ok?
  {
    if lines == [] then Ok([])
    else
      match ParseRow(lines[0])
      case Err(c) => Err(c)
      case Ok(row) =>
        match ParseGrid(lines[1..])
        case Err(c) => Err(c)
        case Ok(rows) => Ok([row] + rows)
  }

  /** One row drawn as glyphs. */
  function RenderRow(row: seq<Floor>): (line: string)
    ensures |line| == |row| && '\n' !in line
    ensures forall j :: 0 <= j < |row| ==> Of(line[j]) == Some(row[j])
  {
    seq(|row|, j requires 0 <= j < |row| => ToChar(row[j]))
  }

  /** Every row drawn as glyphs. */
  function RenderRows(g: Grid): (lines: seq<string>)
    ensures |lines| == |g|
    ensures forall i :: 0 <= i < |g| ==> |lines[i]| == |g[i]| && '\n' !in lines[i]
    ensures forall i, j :: 0 <= i < |g| && 0 <= j < |g[i]| ==> Of(lines[i][j]) == Some(g[i][j])
  {
    seq(|g|, i requires 0 <= i < |g| => RenderRow(g[i]))
  }

  /** Reading drawn rows gives the grid back. */
  lemma ParseRendered(g: Grid)
    ensures ParseGrid(RenderRows(g)) == Ok(g)
  {
    var lines := RenderRows(g);
    forall i, j | 0 <= i < |lines| && 0 <= j < |lines[i]|
      ensures lines[i][j] in Glyphs
    {
      assert lines[i][j] == ToChar(g[i][j]);
    }
    var r := ParseGrid(lines);
    assert r.Ok?;
    forall i | 0 <= i < |g|
      ensures r.value[i] == g[i]
    {
      forall j | 0 <= j < |g[i]|
        ensures r.value[i][j] == g[i][j]
      {
        GlyphRoundTrip(r.value[i][j], g[i][j]);
      }
    }
    assert r.value == g;
  }

  /** Drawing the grid read from some lines gives those lines back. */
  lemma RenderParsed(lines: seq<string>, g: Grid)
    requires ParseGrid(lines) == Ok(g)
    ensures RenderRows(g) == lines
  {
    forall i | 0 <= i < |lines|
      ensures RenderRows(g)[i] == lines[i]
    {
    }
  }

  // -------------------------------------------------------------- markers

  /** Maze._validate: the start glyph is looked for first, then the goal glyph
      (the original prints a message and exits the process). */
  function Validate(s: string): (r: Option<ParseError>)
    ensures r == None <==> 'o' in s && 'x' in s
    ensures r == Some(MissingStart) <==> 'o' !in s
    ensures r == Some(MissingGoal) <==> 'o' in s && 'x' !in s
  {
    if ToChar(Start) !in s then Some(MissingStart)
    else if ToChar(Goal) !in s then Some(MissingGoal)
    else None
  }

  /** `p` is the first cell of the given kind in row-major order. */
  predicate IsFirst(g: Grid, kind: Floor, p: Point)
  {
    0 <= p.x < |g| && 0 <= p.y < |g[p.x]| && g[p.x][p.y] == kind &&
    forall x, y :: 0 <= x < |g| && 0 <= y < |g[x]| && g[x][y] == kind ==>
      p.x < x || (p.x == x && p.y <= y)
  }

  /** The first row, from `from` on, that holds the kind. */
  function FirstRowWith(kind: Floor, g: Grid, from: nat): (x: nat)
    requires exists i :: from <= i < |g| && kind in g[i]
    ensures from <= x < |g| && kind in g[x]
    ensures forall i :: from <= i < x ==> kind !in g[i]
    decreases |g| - from
  {
    if kind in g[from] then from else FirstRowWith(kind, g, from + 1)
  }

  /** The first column, from `from` on, that holds the kind (list.index). */
  function IndexOf(row: seq<Floor>, kind: Floor, from: nat): (y: nat)
    requires exists j :: from <= j < |row| && row[j] == kind
    ensures from <= y < |row| && row[y] == kind
    ensures forall j :: from <= j < y ==> row[j] != kind
    decreases |row| - from
  {
    if row[from] == kind then from else IndexOf(row, kind, from + 1)
  }

  /** Maze._find_xy: the first row holding the kind, and the first column of
      that kind in that row, which is the first occurrence in row-major order. */
  function FindXY(kind: Floor, g: Grid): (p: Point)
    requires exists i :: 0 <= i < |g| && kind in g[i]
    ensures IsFirst(g, kind, p)
  {
    var x := FirstRowWith(kind, g, 0);
    Point(x, IndexOf(g[x], kind, 0))
  }

  /** A marker glyph that occurs in a text whose lines read as `g` occurs as
      a cell of the marker's kind in `g`. */
  lemma MarkerInGrid(s: string, g: Grid, kind: Floor)
    requires ParseGrid(SplitLines(s)) == Ok(g)
    requires ToChar(kind) in s
    ensures exists i :: 0 <= i < |g| && kind in g[i]
  {
    var lines := SplitLines(s);
    LineChars(s, ToChar(kind));
    var i :| 0 <= i < |lines| && ToChar(kind) in lines[i];
    var j :| 0 <= j < |lines[i]| && lines[i][j] == ToChar(kind);
    GlyphRoundTrip(g[i][j], kind);
    assert g[i][j] == kind;
  }

  // ---------------------------------------------------------- parse/render

  /** Maze.parse: validation first, then the glyphs, then the markers. */
  function Parse(s: string): (r: Result<Maze, ParseError>)
    ensures r == Err(MissingStart) <==> 'o' !in s
    ensures r == Err(MissingGoal) <==> 'o' in s && 'x' !in s
    ensures r.Err? && r.error.InvalidCharacter? ==>
      'o' in s && 'x' in s && r.error.c in s && r.error.c !in Glyphs && r.error.c != '\n'
    ensures r.Err? && r.error.InvalidCharacter? ==>
      var lines := SplitLines(s);
      exists i :: 0 <= i < |lines| && ParseRow(lines[i]) == Err(r.error.c) &&
        forall k :: 0 <= k < i ==> ParseRow(lines[k]).Ok?
    ensures r.Ok? ==> RenderRows(r.value.floor) == SplitLines(s)
    ensures r.Ok? ==> IsFirst(r.value.floor, Start, r.value.start) && IsFirst(r.value.floor, Goal, r.value.goal)
  {
    match Validate(s)
    case Some(e) => Err(e)
    case None =>
      var lines := SplitLines(s);
      match ParseGrid(lines)
      case Err(c) =>
        LineChars(s, c);
        Err(InvalidCharacter(c))
      case Ok(floors) =>
        MarkerInGrid(s, floors, Start);
        MarkerInGrid(s, floors, Goal);
        RenderParsed(lines, floors);
        Ok(Maze(floors, FindXY(Start, floors), FindXY(Goal, floors)))
  }

  /** Maze.to_string: the rows drawn as glyphs and joined with "\n". */
  function ToString(m: Maze): (text: string)
    ensures forall c :: c in text ==> c == '\n' || c in Glyphs
    ensures '\n' in text <==> |m.floor| > 1
  {
    var lines := RenderRows(m.floor);
    assert forall c :: c in Join(lines) ==> c == '\n' || c in Glyphs by {
      forall c | c in Join(lines) && c != '\n'
        ensures c in Glyphs
      {
        JoinChars(lines, c);
        var i :| 0 <= i < |lines| && c in lines[i];
        var j :| 0 <= j < |lines[i]| && lines[i][j] == c;
      }
    }
    JoinChars(lines, '\n');
    Join(lines)
  }

  /** A text is a maze exactly when it holds both markers and every other
      character is a glyph or a line break. */
  lemma ParseSucceedsIff(s: string)
    ensures Parse(s).Ok? <==>
      'o' in s && 'x' in s && forall c :: c in s ==> c == '\n' || c in Glyphs
  {
    GlyphsOnly(s);
    if Validate(s) == None {
      assert Parse(s).Ok? <==> ParseGrid(SplitLines(s)).Ok?;
    }
  }

  /** The lines of a text read as floor kinds exactly when every character
      other than a line break is a glyph. */
  lemma GlyphsOnly(s: string)
    ensures ParseGrid(SplitLines(s)).Ok? <==> forall c :: c in s ==> c == '\n' || c in Glyphs
  {
    var lines := SplitLines(s);
    if forall c :: c in s ==> c == '\n' || c in Glyphs {
      forall i, j | 0 <= i < |lines| && 0 <= j < |lines[i]|
        ensures lines[i][j] in Glyphs
      {
        var c := lines[i][j];
        assert c in lines[i];
        LineChars(s, c);
        assert 0 <= i < |SplitLines(s)| && c in SplitLines(s)[i];
      }
    } else {
      var c :| c in s && c != '\n' && c !in Glyphs;
      LineChars(s, c);
      var i :| 0 <= i < |lines| && c in lines[i];
      var j :| 0 <= j < |lines[i]| && lines[i][j] == c;
    }
  }

  /** Drawing a parsed maze gives its text back, less a final line break. */
  lemma ParseThenRender(s: string, m: Maze)
    requires Parse(s) == Ok(m)
    ensures ToString(m) == s || ToString(m) + "\n" == s
  {
    assert ToString(m) == Join(SplitLines(s));
    JoinSplitDropsBreak(s);
  }

  lemma JoinSplitDropsBreak(s: string)
    ensures Join(SplitLines(s)) == s || Join(SplitLines(s)) + "\n" == s
  {
    JoinSplit(s);
    if s != [] && s[|s| - 1] == '\n' {
      var n := |s| - 1;
      assert s[n..] == "\n";
      assert s == s[..n] + s[n..];
    }
  }

  /** Parsing a drawn grid that holds both markers and whose last row is not
      empty gives the same grid, with the markers found again by scanning. */
  lemma RenderThenParse(m: Maze)
    requires exists i :: 0 <= i < |m.floor| && Start in m.floor[i]
    requires exists i :: 0 <= i < |m.floor| && Goal in m.floor[i]
    requires m.floor[|m.floor| - 1] != []
    ensures Parse(ToString(m)) == Ok(Maze(m.floor, FindXY(Start, m.floor), FindXY(Goal, m.floor)))
  {
    var g := m.floor;
    var lines := RenderRows(g);
    forall i | 0 <= i < |lines|
      ensures '\n' !in lines[i]
    {
      assert forall j :: 0 <= j < |lines[i]| ==> lines[i][j] == ToChar(g[i][j]);
    }
    SplitJoin(lines);
    ParseRendered(g);
    MarkerGlyphShown(g, Start);
    MarkerGlyphShown(g, Goal);
  }

  lemma MarkerGlyphShown(g: Grid, kind: Floor)
    requires exists i :: 0 <= i < |g| && kind in g[i]
    ensures ToChar(kind) in Join(RenderRows(g))
  {
    var i :| 0 <= i < |g| && kind in g[i];
    var j :| 0 <= j < |g[i]| && g[i][j] == kind;
    assert RenderRows(g)[i][j] == ToChar(kind);
    JoinChars(RenderRows(g), ToChar(kind));
  }

  /** Render/parse round trip of a parsed maze whose last row is not empty. */
  lemma RoundTrip(s: string, m: Maze)
    requires Parse(s) == Ok(m)
    requires m.floor[|m.floor| - 1] != []
    ensures Parse(ToString(m)) == Ok(m)
  {
    RenderThenParse(m);
  }
}
