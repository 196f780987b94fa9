/** The two text encodings of the pathfinder: the step-log strings `tag:x,y`
    that the search emits and the replay decodes, and the grid-file lines
    `x,y code` that saving writes and loading parses. */
module Encodings {
  import opened Wrappers
  import opened Grid
  import opened Text

  // ---------------------------------------------------------------------
  // Step log

  datatype StepTag = ChooseLowestFScore | AddToClosedList | AddToOpenList

  function TagName(t: StepTag): (r: string)
    ensures |r| > 0 && ':' !in r && ',' !in r
  {
    match t
    case ChooseLowestFScore => "choose_lowest_f_score"
    case AddToClosedList => "add_to_closed_list"
    case AddToOpenList => "add_to_open_list"
  }

  /** One event of the search, before it is rendered as a string. */
  datatype Step = Step(tag: StepTag, at: Coord)

  /** `'<tag>:%s,%s' % coordinates`: the one colon separates the tag name from
      the two coordinates. */
  function FormatStep(s: Step): (r: string)
    ensures Split(r, ':') == [TagName(s.tag), IntToString(s.at.0) + [','] + IntToString(s.at.1)]
  {
    var name, rest := TagName(s.tag), IntToString(s.at.0) + [','] + IntToString(s.at.1);
    IntToStringHasNo(s.at.0, ':');
    IntToStringHasNo(s.at.1, ':');
    assert ':' !in rest;
    SplitPair(name, rest, ':');
    name + [':'] + rest
  }

  /** The replay's decoding of one step string: `split(':')` must give exactly
      two pieces (tuple unpacking), the second is split on `','` and its first
      two pieces are read with `int`. Any exception becomes `None`. */
  function DecodeStep(line: string): (r: Option<(string, Coord)>)
    ensures r.Some? ==> ':' !in r.value.0
  {
    var parts := Split(line, ':');
    if |parts| != 2 then None
    else
      var cs := Split(parts[1], ',');
      if |cs| < 2 then None
      else
        match (ParseInt(cs[0]), ParseInt(cs[1]))
        case (Some(x), Some(y)) =>
          SplitPiecesAvoidSeparator(line, ':');
          Some((parts[0], (x, y)))
        case _ => None
  }

  /** The replay compares the decoded tag against the three names. */
  function TagOf(name: string): (r: Option<StepTag>)
    ensures r.Some? <==> exists t :: TagName(t) == name
    ensures r.Some? ==> TagName(r.value) == name
  {
    if name == TagName(ChooseLowestFScore) then Some(ChooseLowestFScore)
    else if name == TagName(AddToClosedList) then Some(AddToClosedList)
    else if name == TagName(AddToOpenList) then Some(AddToOpenList)
    else None
  }

  lemma {:induction false} SplitPiecesAvoidSeparator(s: string, sep: char)
    ensures forall k | 0 <= k < |Split(s, sep)| :: sep !in Split(s, sep)[k]
    decreases |s|
  {
    if s != [] {
      SplitPiecesAvoidSeparator(s[1..], sep);
    }
  }

  /** Decoding a rendered step recovers its tag name and coordinates. */
  lemma DecodeFormatStep(s: Step)
    ensures DecodeStep(FormatStep(s)) == Some((TagName(s.tag), s.at))
    ensures TagOf(TagName(s.tag)) == Some(s.tag)
  {
    var name, xs, ys := TagName(s.tag), IntToString(s.at.0), IntToString(s.at.1);
    SplitPair(xs, ys, ',');
    ParseIntOfIntToString(s.at.0);
    ParseIntOfIntToString(s.at.1);
  }

  /** Distinct events render as distinct strings. */
  lemma FormatStepInjective(s1: Step, s2: Step)
    ensures FormatStep(s1) == FormatStep(s2) <==> s1 == s2
  {
    if FormatStep(s1) == FormatStep(s2) {
      DecodeFormatStep(s1);
      DecodeFormatStep(s2);
    }
  }

  // ---------------------------------------------------------------------
  // Grid file

  /** `str(x) + ',' + str(y) + ' ' + str(code)`; the writer adds `'\n'`. */
  function FormatGridLine(c: Coord, code: int): (r: string)
    ensures Split(r, ' ') == [IntToString(c.0) + [','] + IntToString(c.1), IntToString(code)]
    ensures '\n' !in r
  {
    var coords, cs := IntToString(c.0) + [','] + IntToString(c.1), IntToString(code);
    IntToStringHasNo(c.0, ' ');
    IntToStringHasNo(c.1, ' ');
    IntToStringHasNo(code, ' ');
    IntToStringHasNo(c.0, '\n');
    IntToStringHasNo(c.1, '\n');
    IntToStringHasNo(code, '\n');
    assert ' ' !in coords;
    SplitPair(coords, cs, ' ');
    coords + [' '] + cs
  }

  /** The loader's parse of one line: `split(' ')` must give exactly two
      pieces, the first is split on `','` and its first two pieces are read
      with `int`, the second is read with `int`. Any exception becomes `None`. */
  function ParseGridLine(line: string): (r: Option<(Coord, int)>)
    ensures r.Some? ==> |Split(line, ' ')| == 2 && ParseInt(Split(line, ' ')[1]) == Some(r.value.1)
  {
    var parts := Split(line, ' ');
    if |parts| != 2 then None
    else
      var cs := Split(parts[0], ',');
      if |cs| < 2 then None
      else
        match (ParseInt(cs[0]), ParseInt(cs[1]), ParseInt(parts[1]))
        case (Some(x), Some(y), Some(code)) => Some(((x, y), code))
        case _ => None
  }

  /** The saver skips the transient entities: player, target and the replay marks. */
  predicate IsPersisted(code: int) {
    code !in {Player, Target, PathMark, InOpenListMark, InClosedListMark, LowestFScoreMark}
  }

  /** Among the eight entity codes only empty cells and walls are saved. */
  lemma PersistedCodes(code: int)
    requires EmptyCell <= code <= InOpenListMark
    ensures IsPersisted(code) <==> code == EmptyCell || code == Wall
  {
  }

  /** A written line, read back with its newline, parses to the cell and code it was written from. */
  lemma ParseFormatGridLine(c: Coord, code: int)
    ensures ParseGridLine(FormatGridLine(c, code) + "\n") == Some((c, code))
  {
    var xs, ys, cs := IntToString(c.0), IntToString(c.1), IntToString(code);
    var coords := xs + [','] + ys;
    var tail := cs + "\n";
    IntToStringHasNo(c.0, ' ');
    IntToStringHasNo(c.1, ' ');
    IntToStringHasNo(code, ' ');
    IntToStringHasNo(c.0, ',');
    IntToStringHasNo(c.1, ',');
    assert ' ' !in coords;
    assert ' ' !in tail;
    assert FormatGridLine(c, code) + "\n" == coords + [' '] + tail;
    SplitPair(coords, tail, ' ');
    SplitPair(xs, ys, ',');
    ParseIntOfIntToString(c.0);
    ParseIntOfIntToString(c.1);
    ParseIntWithNewline(code);
  }

  /** What `save_graph` writes for one cell: its line, if the cell passes the filter. */
  function SaveLine(c: Coord, code: int): (r: seq<string>)
    ensures |r| <= 1
    ensures r != [] <==> IsPersisted(code)
    ensures r != [] ==> ParseGridLine(r[0]) == Some((c, code))
  {
    ParseFormatGridLine(c, code);
    if IsPersisted(code) then [FormatGridLine(c, code) + "\n"] else []
  }

  /** The lines `save_graph` writes for the cells it visits, in visiting order. */
  function SavedLines(cells: seq<(Coord, int)>): (lines: seq<string>)
    ensures |lines| <= |cells|
  {
    if cells == [] then [] else SaveLine(cells[0].0, cells[0].1) + SavedLines(cells[1..])
  }

  /** The cells that survive the save filter, in visiting order. */
  function PersistedCells(cells: seq<(Coord, int)>): (r: seq<(Coord, int)>)
    ensures |r| <= |cells|
    ensures forall k | 0 <= k < |r| :: IsPersisted(r[k].1)
  {
    if cells == [] then []
    else
      var rest := PersistedCells(cells[1..]);
      if IsPersisted(cells[0].1) then [cells[0]] + rest else rest
  }

  /** Parses every line; one malformed line makes the whole load fail. */
  function ParseGridLines(lines: seq<string>): Option<seq<(Coord, int)>> {
    if lines == [] then Some([])
    else
      match (ParseGridLine(lines[0]), ParseGridLines(lines[1..]))
      case (Some(e), Some(rest)) => Some([e] + rest)
      case _ => None
  }

  /** The terrain of a freshly created grid: every cell in bounds is empty. */
  function BlankTerrain(w: int, h: int): (m: map<Coord, int>)
    ensures forall c :: c in m <==> InBounds(c, w, h)
    ensures forall c | c in m :: m[c] == EmptyCell
  {
    map x: int, y: int | 0 <= x < w && 0 <= y < h :: (x, y) := EmptyCell
  }

  /** Overwrites cells in order; a later entry for the same cell wins. */
  function ApplyEntries(m: map<Coord, int>, entries: seq<(Coord, int)>): (r: map<Coord, int>)
    ensures forall c :: c in r <==> c in m || exists k | 0 <= k < |entries| :: entries[k].0 == c
    decreases |entries|
  {
    if entries == [] then m else ApplyEntries(m[entries[0].0 := entries[0].1], entries[1..])
  }

  /** The terrain `init_graph` builds from the lines of a file. */
  function LoadTerrain(w: int, h: int, lines: seq<string>): Option<map<Coord, int>> {
    match ParseGridLines(lines)
    case Some(entries) => Some(ApplyEntries(BlankTerrain(w, h), entries))
    case None => None
  }

  lemma {:induction false} ParseSavedLines(cells: seq<(Coord, int)>)
    ensures ParseGridLines(SavedLines(cells)) == Some(PersistedCells(cells))
    decreases |cells|
  {
    if cells != [] {
      ParseSavedLines(cells[1..]);
      var lines := SavedLines(cells);
      var rest := SavedLines(cells[1..]);
      if IsPersisted(cells[0].1) {
        var line := FormatGridLine(cells[0].0, cells[0].1) + "\n";
        ParseFormatGridLine(cells[0].0, cells[0].1);
        assert lines == [line] + rest;
        assert lines[0] == line && lines[1..] == rest;
      } else {
        assert lines == rest;
      }
    }
  }

  /** With distinct cells, the applied map holds each entry's own code. */
  lemma {:induction false} ApplyDistinct(m: map<Coord, int>, entries: seq<(Coord, int)>, c: Coord)
    requires forall i, j | 0 <= i < j < |entries| :: entries[i].0 != entries[j].0
    ensures forall k | 0 <= k < |entries| && entries[k].0 == c :: ApplyEntries(m, entries)[c] == entries[k].1
    ensures (forall k | 0 <= k < |entries| :: entries[k].0 != c) && c in m ==> ApplyEntries(m, entries)[c] == m[c]
    decreases |entries|
  {
    if entries != [] {
      var m' := m[entries[0].0 := entries[0].1];
      ApplyDistinct(m', entries[1..], c);
      forall k | 0 <= k < |entries| && entries[k].0 == c
        ensures ApplyEntries(m, entries)[c] == entries[k].1
      {
        if k > 0 {
          assert entries[1..][k - 1] == entries[k];
        } else {
          assert forall j | 0 <= j < |entries[1..]| :: entries[1..][j].0 != c by {
            forall j | 0 <= j < |entries[1..]| ensures entries[1..][j].0 != c {
              assert entries[1..][j] == entries[j + 1];
            }
          }
        }
      }
      if (forall k | 0 <= k < |entries| :: entries[k].0 != c) && c in m {
        assert forall j | 0 <= j < |entries[1..]| :: entries[1..][j].0 != c by {
          forall j | 0 <= j < |entries[1..]| ensures entries[1..][j].0 != c {
            assert entries[1..][j] == entries[j + 1];
          }
        }
      }
    }
  }

  lemma {:induction false} PersistedCellsMembership(cells: seq<(Coord, int)>, c: Coord, code: int)
    ensures (c, code) in PersistedCells(cells) <==> (c, code) in cells && IsPersisted(code)
    decreases |cells|
  {
    if cells != [] {
      PersistedCellsMembership(cells[1..], c, code);
      assert cells == [cells[0]] + cells[1..];
    }
  }

  lemma PersistedCellsDistinct(cells: seq<(Coord, int)>)
    requires forall i, j | 0 <= i < j < |cells| :: cells[i].0 != cells[j].0
    ensures forall i, j | 0 <= i < j < |PersistedCells(cells)| :: PersistedCells(cells)[i].0 != PersistedCells(cells)[j].0
    decreases |cells|
  {
    if cells != [] {
      PersistedCellsDistinct(cells[1..]);
      var p := PersistedCells(cells);
      if IsPersisted(cells[0].1) {
        forall j | 0 < j < |p| ensures p[0].0 != p[j].0 {
          assert p[j] in PersistedCells(cells[1..]);
          PersistedCellsMembership(cells[1..], p[j].0, p[j].1);
          var k :| 0 <= k < |cells[1..]| && cells[1..][k] == p[j];
          assert cells[k + 1] == p[j];
        }
      }
    }
  }

  /** A cell in bounds that was not saved keeps the blank terrain's empty code. */
  lemma UnsavedCellsEmpty(w: int, h: int, cells: seq<(Coord, int)>)
    requires forall i, j | 0 <= i < j < |cells| :: cells[i].0 != cells[j].0
    ensures forall c | InBounds(c, w, h) && (forall k | 0 <= k < |cells| :: cells[k].0 != c) ::
      ApplyEntries(BlankTerrain(w, h), PersistedCells(cells))[c] == EmptyCell
  {
    var p := PersistedCells(cells);
    PersistedCellsDistinct(cells);
    forall c | InBounds(c, w, h) && (forall k | 0 <= k < |cells| :: cells[k].0 != c)
      ensures ApplyEntries(BlankTerrain(w, h), p)[c] == EmptyCell
    {
      forall j | 0 <= j < |p| ensures p[j].0 != c {
        assert p[j] in p;
        PersistedCellsMembership(cells, p[j].0, p[j].1);
        var k :| 0 <= k < |cells| && cells[k] == p[j];
      }
      ApplyDistinct(BlankTerrain(w, h), p, c);
    }
  }

  /** Saving a grid whose cells are listed once each and loading the saved
      lines gives back every saved cell's code; every other cell in bounds
      comes back empty. */
  lemma SaveLoadRoundTrip(w: int, h: int, cells: seq<(Coord, int)>)
    requires forall i, j | 0 <= i < j < |cells| :: cells[i].0 != cells[j].0
    requires forall k | 0 <= k < |cells| :: InBounds(cells[k].0, w, h)
    ensures LoadTerrain(w, h, SavedLines(cells)).Some?
    ensures forall k | 0 <= k < |cells| ::
      LoadTerrain(w, h, SavedLines(cells)).value[cells[k].0]
        == if IsPersisted(cells[k].1) then cells[k].1 else EmptyCell
    ensures forall c :: c in LoadTerrain(w, h, SavedLines(cells)).value <==> InBounds(c, w, h)
    ensures forall c | InBounds(c, w, h) && (forall k | 0 <= k < |cells| :: cells[k].0 != c) ::
      LoadTerrain(w, h, SavedLines(cells)).value[c] == EmptyCell
  {
    ParseSavedLines(cells);
    assert LoadTerrain(w, h, SavedLines(cells)) == Some(ApplyEntries(BlankTerrain(w, h), PersistedCells(cells)));
    LoadedKeys(w, h, cells);
    SavedCellsRestored(w, h, cells);
    UnsavedCellsEmpty(w, h, cells);
  }

  /** Loading the saved cells over the blank grid adds no cell outside the bounds. */
  lemma LoadedKeys(w: int, h: int, cells: seq<(Coord, int)>)
    requires forall k | 0 <= k < |cells| :: InBounds(cells[k].0, w, h)
    ensures forall c :: c in ApplyEntries(BlankTerrain(w, h), PersistedCells(cells)) <==> InBounds(c, w, h)
  {
    var p := PersistedCells(cells);
    var m := ApplyEntries(BlankTerrain(w, h), p);
    forall c ensures c in m <==> InBounds(c, w, h) {
      if exists k | 0 <= k < |p| :: p[k].0 == c {
        var k :| 0 <= k < |p| && p[k].0 == c;
        assert p[k] in p;
        PersistedCellsMembership(cells, p[k].0, p[k].1);
      }
    }
  }

  /** Loading the saved cells over the blank grid gives each visited cell its
      code if it was saved, and the empty code if it was filtered out. */
  lemma SavedCellsRestored(w: int, h: int, cells: seq<(Coord, int)>)
    requires forall i, j | 0 <= i < j < |cells| :: cells[i].0 != cells[j].0
    requires forall k | 0 <= k < |cells| :: InBounds(cells[k].0, w, h)
    ensures forall k | 0 <= k < |cells| ::
      ApplyEntries(BlankTerrain(w, h), PersistedCells(cells))[cells[k].0]
        == if IsPersisted(cells[k].1) then cells[k].1 else EmptyCell
  {
    var p := PersistedCells(cells);
    PersistedCellsDistinct(cells);
    var m := ApplyEntries(BlankTerrain(w, h), p);
    forall k | 0 <= k < |cells|
      ensures m[cells[k].0] == if IsPersisted(cells[k].1) then cells[k].1 else EmptyCell
    {
      var c := cells[k].0;
      ApplyDistinct(BlankTerrain(w, h), p, c);
      if IsPersisted(cells[k].1) {
        PersistedCellsMembership(cells, c, cells[k].1);
        var j :| 0 <= j < |p| && p[j] == (c, cells[k].1);
      } else {
        forall j | 0 <= j < |p| ensures p[j].0 != c {
          assert p[j] in p;
          PersistedCellsMembership(cells, p[j].0, p[j].1);
        }
      }
    }
  }

  // ---------------------------------------------------------------------
  // Cell by cell: what the saver loop needs

  /** Visiting one more cell appends its line exactly when it is persisted. */
  lemma {:induction false} SavedLinesSnoc(cells: seq<(Coord, int)>, cell: (Coord, int))
    ensures SavedLines(cells + [cell]) == SavedLines(cells) + SaveLine(cell.0, cell.1)
    decreases |cells|
  {
    if cells == [] {
      assert ([] + [cell])[1..] == [];
    } else {
      assert (cells + [cell])[1..] == cells[1..] + [cell];
      SavedLinesSnoc(cells[1..], cell);
    }
  }

  /** The lines of the first `i + 1` cells: those of the first `i`, then the line of cell `i` if it is kept. */
  lemma SavedLinesPrefix(cells: seq<(Coord, int)>, i: int)
    requires 0 <= i < |cells|
    ensures SavedLines(cells[..i + 1]) == SavedLines(cells[..i]) + SaveLine(cells[i].0, cells[i].1)
  {
    assert cells[..i + 1] == cells[..i] + [cells[i]];
    SavedLinesSnoc(cells[..i], cells[i]);
  }

  /** The terrain `init_graph` builds on the default grid: all empty, or loaded from the file's lines. */
  function InitialTerrain(loadFromFile: bool, lines: seq<string>): Option<map<Coord, int>> {
    if loadFromFile then LoadTerrain(DefaultWidth, DefaultHeight, lines) else Some(BlankTerrain(DefaultWidth, DefaultHeight))
  }

  /** Reading the line at `i`, all earlier lines having parsed: a bad line
      fails the rest of the load, a good one puts its entry in front of the
      entries of the lines after it. */
  lemma ParseGridLinesStep(lines: seq<string>, i: int)
    requires 0 <= i < |lines|
    ensures ParseGridLine(lines[i]).None? ==> ParseGridLines(lines[i..]).None?
    ensures ParseGridLine(lines[i]).Some? ==>
      (ParseGridLines(lines[i..]).Some? <==> ParseGridLines(lines[i + 1..]).Some?)
    ensures ParseGridLine(lines[i]).Some? && ParseGridLines(lines[i + 1..]).Some? ==>
      ParseGridLines(lines[i..]).value == [ParseGridLine(lines[i]).value] + ParseGridLines(lines[i + 1..]).value
  {
    assert lines[i..][0] == lines[i] && lines[i..][1..] == lines[i + 1..];
  }

  lemma ApplyEntriesStep(m: map<Coord, int>, e: (Coord, int), rest: seq<(Coord, int)>)
    ensures ApplyEntries(m, [e] + rest) == ApplyEntries(m[e.0 := e.1], rest)
  {
    assert ([e] + rest)[1..] == rest;
  }
}
