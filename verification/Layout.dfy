/** The dashboard generator's panel grid: rows of panels packed left to right onto shelves 24 columns wide. */
module Layout {
  import opened Common

  const COLUMNS := 24

  datatype Kind = Stat | Flag | Heatmap | TimeSeries
  datatype Extent = Default | Given(size: nat)
  datatype Spec = Spec(kind: Kind, w: Extent, h: Extent) {
    function Width(): nat {
      if w.Given? then w.size else 12
    }

    function Height(): nat {
      if h.Given? then h.size else if kind.Stat? || kind.Flag? then 5 else 8
    }
  }

  /** A placed panel: its id and its rectangle, which covers columns x to x + w and lines y to y + h. */
  datatype Panel = Panel(id: nat, x: nat, y: nat, w: nat, h: nat)

  predicate Apart(a: Panel, b: Panel) {
    a.x + a.w <= b.x || b.x + b.w <= a.x || a.y + a.h <= b.y || b.y + b.h <= a.y
  }

  ghost predicate AllApart(panels: seq<Panel>) {
    forall i, j :: 0 <= i < j < |panels| ==> Apart(panels[i], panels[j])
  }

  ghost predicate Numbered(panels: seq<Panel>) {
    forall i :: 0 <= i < |panels| ==> panels[i].id == i + 1
  }

  /** A panel leaves the grid only if it is itself wider than the grid. */
  ghost predicate WithinColumns(panels: seq<Panel>) {
    forall i :: 0 <= i < |panels| ==> (panels[i].x + panels[i].w <= COLUMNS <==> panels[i].w <= COLUMNS)
  }

  ghost predicate GoodGrid(panels: seq<Panel>) {
    AllApart(panels) && Numbered(panels) && WithinColumns(panels)
  }

  /** The packing state: every panel lies above line y, or on the shelf at y left of column x and no taller than
      the shelf. */
  ghost predicate Shelved(panels: seq<Panel>, x: nat, y: nat, shelf: nat) {
    forall i :: 0 <= i < |panels| ==>
      || panels[i].y + panels[i].h <= y
      || (panels[i].y == y && panels[i].x + panels[i].w <= x && panels[i].h <= shelf)
  }

  /** The width and height of every panel asked for, headers included, in order. */
  function ShapesOfRow(specs: seq<Spec>): seq<(nat, nat)> {
    if specs == [] then [(COLUMNS, 1)]
    else ShapesOfRow(specs[..|specs| - 1]) + [(specs[|specs| - 1].Width(), specs[|specs| - 1].Height())]
  }

  function Shapes(rows: seq<seq<Spec>>): seq<(nat, nat)> {
    if rows == [] then [] else Shapes(rows[..|rows| - 1]) + ShapesOfRow(rows[|rows| - 1])
  }

  function Sizes(panels: seq<Panel>): (s: seq<(nat, nat)>)
    ensures |s| == |panels|
  {
    seq(|panels|, i requires 0 <= i < |panels| => (panels[i].w, panels[i].h))
  }

  // ----- where the panels go -----

  /** The packing point: the next column, the line of the current shelf, and the shelf's height so far. */
  datatype Cursor = Cursor(x: nat, y: nat, shelf: nat) {
    /** The packing point for a panel of width w: a new shelf if it does not fit beside the last one. */
    function For(w: nat): Cursor {
      if x + w > COLUMNS then Cursor(0, y + shelf, 0) else this
    }

    function Past(w: nat, h: nat): Cursor {
      Cursor(x + w, y, if h > shelf then h else shelf)
    }
  }

  function CursorAfter(top: nat, specs: seq<Spec>): Cursor {
    if specs == [] then Cursor(0, top + 1, 0)
    else
      var last := specs[|specs| - 1];
      CursorAfter(top, specs[..|specs| - 1]).For(last.Width()).Past(last.Width(), last.Height())
  }

  /** A row at line `top`: its header and its panels, numbered from `id`. */
  function RowPanels(id: nat, top: nat, specs: seq<Spec>): (panels: seq<Panel>)
    ensures |panels| == 1 + |specs|
  {
    if specs == [] then [Panel(id, 0, top, COLUMNS, 1)]
    else
      var last := specs[|specs| - 1];
      var c := CursorAfter(top, specs[..|specs| - 1]).For(last.Width());
      RowPanels(id, top, specs[..|specs| - 1]) + [Panel(id + |specs|, c.x, c.y, last.Width(), last.Height())]
  }

  function RowBottom(top: nat, specs: seq<Spec>): nat {
    CursorAfter(top, specs).y + CursorAfter(top, specs).shelf
  }

  function GridPanels(rows: seq<seq<Spec>>): seq<Panel> {
    if rows == [] then []
    else
      var before := GridPanels(rows[..|rows| - 1]);
      before + RowPanels(|before| + 1, GridBottom(rows[..|rows| - 1]), rows[|rows| - 1])
  }

  function GridBottom(rows: seq<seq<Spec>>): nat {
    if rows == [] then 0 else RowBottom(GridBottom(rows[..|rows| - 1]), rows[|rows| - 1])
  }

  /** The packing point after a non-empty row: right of its last panel, on a shelf exactly as tall as its tallest
      panel, with everything before above the shelf's end. */
  lemma {:induction false} CursorIs(id: nat, top: nat, specs: seq<Spec>)
    requires specs != []
    ensures var c, ps := CursorAfter(top, specs), RowPanels(id, top, specs);
            && c.x == ps[|specs|].x + ps[|specs|].w && c.y == ps[|specs|].y
            && (exists j :: 1 <= j <= |specs| && ps[j].y == c.y && ps[j].h == c.shelf)
            && (forall j :: 1 <= j <= |specs| ==> ps[j].y + ps[j].h <= c.y + c.shelf)
  {
    var n := |specs| - 1;
    var front, ps := specs[..n], RowPanels(id, top, specs);
    var c := CursorAfter(top, specs);
    if front == [] {
      assert ps[1].y == c.y && ps[1].h == c.shelf;
    } else {
      CursorIs(id, top, front);
      var qs, d := RowPanels(id, top, front), CursorAfter(top, front);
      assert forall j :: 0 <= j <= n ==> ps[j] == qs[j];
      var j :| 1 <= j <= n && qs[j].y == d.y && qs[j].h == d.shelf;
      if c.shelf == specs[n].Height() {
        assert ps[n + 1].y == c.y && ps[n + 1].h == c.shelf;
      } else {
        assert ps[j].y == c.y && ps[j].h == c.shelf;
      }
    }
  }

  /** Greedy packing. The next panel of a row goes right beside the last one exactly when it fits the grid there;
      otherwise it starts a new shelf at the left, right under the tallest panel of the row's last shelf. */
  lemma NextPanel(id: nat, top: nat, specs: seq<Spec>, s: Spec)
    requires specs != []
    ensures var ps, next := RowPanels(id, top, specs), RowPanels(id, top, specs + [s]);
            var p, q := ps[|specs|], next[|specs| + 1];
            && next == ps + [q] && q.w == s.Width() && q.h == s.Height()
            && if p.x + p.w + q.w <= COLUMNS then q.x == p.x + p.w && q.y == p.y
               else && q.x == 0
                    && (exists j :: 1 <= j <= |specs| && ps[j].y == p.y && ps[j].y + ps[j].h == q.y)
                    && (forall j :: 1 <= j <= |specs| ==> ps[j].y + ps[j].h <= q.y)
  {
    CursorIs(id, top, specs);
    assert (specs + [s])[..|specs|] == specs;
    var ps, c := RowPanels(id, top, specs), CursorAfter(top, specs);
    var j :| 1 <= j <= |specs| && ps[j].y == c.y && ps[j].h == c.shelf;
    assert ps[j].y + ps[j].h == c.y + c.shelf;
  }

  /** A panel placed at the packing point is apart from everything placed before it. */
  lemma Place(panels: seq<Panel>, x: nat, y: nat, shelf: nat, p: Panel)
    requires GoodGrid(panels) && Shelved(panels, x, y, shelf)
    requires p.id == |panels| + 1 && p.x == x && p.y == y && (x + p.w <= COLUMNS || x == 0)
    ensures GoodGrid(panels + [p])
    ensures Shelved(panels + [p], x + p.w, y, if p.h > shelf then p.h else shelf)
    ensures Sizes(panels + [p]) == Sizes(panels) + [(p.w, p.h)]
  {
  }

  /** Closing a shelf puts everything above the next packing point. */
  lemma CloseShelf(panels: seq<Panel>, x: nat, y: nat, shelf: nat)
    requires Shelved(panels, x, y, shelf)
    ensures Shelved(panels, 0, y + shelf, 0)
  {
  }

  lemma EmptyRow(id: nat, top: nat)
    ensures RowPanels(id, top, []) == [Panel(id, 0, top, COLUMNS, 1)] && CursorAfter(top, []) == Cursor(0, top + 1, 0)
    ensures ShapesOfRow([]) == [(COLUMNS, 1)]
  {
  }

  lemma RowStep(id: nat, top: nat, specs: seq<Spec>, i: nat)
    requires i < |specs|
    ensures var w, h := specs[i].Width(), specs[i].Height();
            var c := CursorAfter(top, specs[..i]).For(w);
            && |RowPanels(id, top, specs[..i])| == i + 1
            && RowPanels(id, top, specs[..i + 1]) == RowPanels(id, top, specs[..i]) + [Panel(id + i + 1, c.x, c.y, w, h)]
            && CursorAfter(top, specs[..i + 1]) == c.Past(w, h)
            && ShapesOfRow(specs[..i + 1]) == ShapesOfRow(specs[..i]) + [(w, h)]
  {
    assert specs[..i + 1][..i] == specs[..i];
  }

  /** Packs one row of panels under its header. */
  method PackRow(before: seq<Panel>, top: nat, specs: seq<Spec>) returns (panels: seq<Panel>, y: nat)
    requires GoodGrid(before) && Shelved(before, 0, top, 0)
    ensures GoodGrid(panels) && Shelved(panels, 0, y, 0)
    ensures Sizes(panels) == Sizes(before) + ShapesOfRow(specs)
    ensures panels == before + RowPanels(|before| + 1, top, specs) && y == RowBottom(top, specs)
  {
    hide GoodGrid, Shelved, Sizes, RowPanels, CursorAfter, ShapesOfRow;
    var header := Panel(|before| + 1, 0, top, COLUMNS, 1);
    Place(before, 0, top, 0, header);
    panels := before + [header];
    CloseShelf(panels, COLUMNS, top, 1);
    y := top + 1;
    var x: nat, shelf: nat := 0, 0;
    assert specs[..0] == [];
    EmptyRow(|before| + 1, top);
    for i := 0 to |specs|
      invariant GoodGrid(panels) && Shelved(panels, x, y, shelf) && |panels| == |before| + 1 + i
      invariant Sizes(panels) == Sizes(before) + ShapesOfRow(specs[..i])
      invariant Cursor(x, y, shelf) == CursorAfter(top, specs[..i])
      invariant panels == before + RowPanels(|before| + 1, top, specs[..i])
    {
      var w, h := specs[i].Width(), specs[i].Height();
      if x + w > COLUMNS {
        CloseShelf(panels, x, y, shelf);
        x, y, shelf := 0, y + shelf, 0;
      }
      var p := Panel(|panels| + 1, x, y, w, h);
      Place(panels, x, y, shelf, p);
      RowStep(|before| + 1, top, specs, i);
      AppendAssoc(before, RowPanels(|before| + 1, top, specs[..i]), [p]);
      AppendAssoc(Sizes(before), ShapesOfRow(specs[..i]), [(w, h)]);
      panels := panels + [p];
      x, shelf := x + w, if h > shelf then h else shelf;
    }
    assert specs[..|specs|] == specs;
    CloseShelf(panels, x, y, shelf);
    y := y + shelf;
  }

  /** The whole grid: the rows packed greedily one under the other. No two panels overlap, ids count up from one, a
      panel stays within 24 columns unless it is itself wider, and the panels are those asked for, in order and at
      their sizes. */
  method Build(rows: seq<seq<Spec>>) returns (panels: seq<Panel>)
    ensures AllApart(panels) && Numbered(panels) && WithinColumns(panels)
    ensures Sizes(panels) == Shapes(rows)
    ensures panels == GridPanels(rows)
  {
    hide ShapesOfRow, RowPanels, RowBottom;
    var y := 0;
    panels := [];
    for i := 0 to |rows|
      invariant GoodGrid(panels) && Shelved(panels, 0, y, 0)
      invariant Sizes(panels) == Shapes(rows[..i])
      invariant panels == GridPanels(rows[..i]) && y == GridBottom(rows[..i])
    {
      assert rows[..i + 1][..i] == rows[..i];
      panels, y := PackRow(panels, y, rows[i]);
    }
    assert rows[..|rows|] == rows;
  }

  /** With every width at most 24 the whole dashboard lies within the grid, and no id repeats. */
  lemma GridFits(panels: seq<Panel>, rows: seq<seq<Spec>>)
    requires Numbered(panels) && WithinColumns(panels) && Sizes(panels) == Shapes(rows)
    requires forall r, i :: 0 <= r < |rows| && 0 <= i < |rows[r]| ==> rows[r][i].Width() <= COLUMNS
    ensures forall i :: 0 <= i < |panels| ==> panels[i].x + panels[i].w <= COLUMNS
    ensures forall i, j :: 0 <= i < j < |panels| ==> panels[i].id != panels[j].id
  {
    ShapesFit(rows);
    forall i | 0 <= i < |panels|
      ensures panels[i].w <= COLUMNS
    {
      assert Sizes(panels)[i].0 <= COLUMNS;
    }
  }

  lemma {:induction false} ShapesFit(rows: seq<seq<Spec>>)
    requires forall r, i :: 0 <= r < |rows| && 0 <= i < |rows[r]| ==> rows[r][i].Width() <= COLUMNS
    ensures forall i :: 0 <= i < |Shapes(rows)| ==> Shapes(rows)[i].0 <= COLUMNS
  {
    if rows != [] {
      ShapesFit(rows[..|rows| - 1]);
      RowFits(rows[|rows| - 1]);
    }
  }

  lemma {:induction false} RowFits(specs: seq<Spec>)
    requires forall i :: 0 <= i < |specs| ==> specs[i].Width() <= COLUMNS
    ensures forall i :: 0 <= i < |ShapesOfRow(specs)| ==> ShapesOfRow(specs)[i].0 <= COLUMNS
  {
    if specs != [] {
      RowFits(specs[..|specs| - 1]);
    }
  }
}
