/**
 * The cell sequence and the whole-sequence transformations the notebook
 * builds every change from: spread-append, `map` by id and `filter` by id.
 */
module CellStore {
  import opened Wrappers
  import opened Types

  /** Some cell carries this id. */
  predicate HasId(cells: seq<Cell>, id: string)
  {
    exists i :: 0 <= i < |cells| && cells[i].id == id
  }

  /** A freshly created cell: empty, never executed, not executing. */
  function NewCell(id: string, kind: CellType): Cell
  {
    Cell(id, kind, "", None, false)
  }

  /** `[...cells, newCell]`: the new blank cell goes last, the others keep their place. */
  function AddCell(cells: seq<Cell>, id: string, kind: CellType): (r: seq<Cell>)
    ensures |r| == |cells| + 1
    ensures r[..|cells|] == cells
    ensures r[|cells|].id == id && r[|cells|].kind == kind
    ensures r[|cells|].content == "" && r[|cells|].output.None? && !r[|cells|].isExecuting
  {
    cells + [NewCell(id, kind)]
  }

  /** `cells.map(c => c.id === id ? f(c) : c)`. */
  function MapById(cells: seq<Cell>, id: string, f: Cell -> Cell): (r: seq<Cell>)
    ensures |r| == |cells|
  {
    if cells == [] then []
    else [if cells[0].id == id then f(cells[0]) else cells[0]] + MapById(cells[1..], id, f)
  }

  /** Each position of a `map` by id holds the transformed cell exactly where the id matches. */
  lemma {:induction false} MapByIdAt(cells: seq<Cell>, id: string, f: Cell -> Cell, i: int)
    requires 0 <= i < |cells|
    ensures MapById(cells, id, f)[i] == if cells[i].id == id then f(cells[i]) else cells[i]
  {
    if i > 0 {
      MapByIdAt(cells[1..], id, f, i - 1);
    }
  }

  /** A `map` by an id no cell carries returns the sequence unchanged. */
  lemma MapByIdAbsent(cells: seq<Cell>, id: string, f: Cell -> Cell)
    requires !HasId(cells, id)
    ensures MapById(cells, id, f) == cells
  {
    forall i | 0 <= i < |cells| ensures MapById(cells, id, f)[i] == cells[i] {
      MapByIdAt(cells, id, f, i);
    }
  }

  /** `{ ...c, content }`. */
  function SetContent(content: string): Cell -> Cell
  {
    (c: Cell) => c.(content := content)
  }

  /** `updateCell`: replace the content of every cell with this id. */
  function UpdateCell(cells: seq<Cell>, id: string, content: string): (r: seq<Cell>)
    ensures |r| == |cells|
  {
    MapById(cells, id, SetContent(content))
  }

  /**
   * Updating keeps length, order, ids, types, outputs and busy flags, and sets
   * the content to `content` on exactly the cells with that id.
   */
  lemma UpdateCellSpec(cells: seq<Cell>, id: string, content: string, i: int)
    requires 0 <= i < |cells|
    ensures UpdateCell(cells, id, content)[i].id == cells[i].id
    ensures UpdateCell(cells, id, content)[i].kind == cells[i].kind
    ensures UpdateCell(cells, id, content)[i].output == cells[i].output
    ensures UpdateCell(cells, id, content)[i].isExecuting == cells[i].isExecuting
    ensures UpdateCell(cells, id, content)[i].content == if cells[i].id == id then content else cells[i].content
  {
    MapByIdAt(cells, id, SetContent(content), i);
  }

  /** Updating an id no cell carries changes nothing. */
  lemma UpdateCellAbsent(cells: seq<Cell>, id: string, content: string)
    requires !HasId(cells, id)
    ensures UpdateCell(cells, id, content) == cells
  {
    MapByIdAbsent(cells, id, SetContent(content));
  }

  /** Applying the same update twice is the same as applying it once. */
  lemma UpdateCellIdempotent(cells: seq<Cell>, id: string, content: string)
    ensures UpdateCell(UpdateCell(cells, id, content), id, content) == UpdateCell(cells, id, content)
  {
    var once := UpdateCell(cells, id, content);
    forall i | 0 <= i < |cells|
      ensures UpdateCell(once, id, content)[i] == once[i]
    {
      UpdateCellSpec(cells, id, content, i);
      UpdateCellSpec(once, id, content, i);
    }
  }

  /** `deleteCell`: `cells.filter(c => c.id !== id)`. */
  function DeleteCell(cells: seq<Cell>, id: string): (r: seq<Cell>)
    ensures |r| <= |cells|
  {
    if cells == [] then []
    else (if cells[0].id == id then [] else [cells[0]]) + DeleteCell(cells[1..], id)
  }

  /** The cells left are exactly the ones whose id differs, each as often as before. */
  lemma {:induction false} DeleteCellCounts(cells: seq<Cell>, id: string)
    ensures forall c :: multiset(DeleteCell(cells, id))[c] == if c.id == id then 0 else multiset(cells)[c]
  {
    if cells != [] {
      DeleteCellCounts(cells[1..], id);
      assert cells == [cells[0]] + cells[1..];
    }
  }

  /** No cell with the deleted id remains, and every other cell does. */
  lemma DeleteCellMembers(cells: seq<Cell>, id: string)
    ensures !HasId(DeleteCell(cells, id), id)
    ensures forall c :: c in DeleteCell(cells, id) <==> c in cells && c.id != id
  {
    DeleteCellCounts(cells, id);
    var r := DeleteCell(cells, id);
    forall c ensures c in r <==> c in cells && c.id != id {
      assert c in r <==> multiset(r)[c] > 0;
      assert c in cells <==> multiset(cells)[c] > 0;
    }
    forall i | 0 <= i < |r| ensures r[i].id != id {
      assert r[i] in r;
    }
  }

  /** `r` is `s` with some elements left out, the rest in their original relative order. */
  ghost predicate IsSubsequence(r: seq<Cell>, s: seq<Cell>)
    decreases |s|
  {
    r == [] || (s != [] && ((r[0] == s[0] && IsSubsequence(r[1..], s[1..])) || IsSubsequence(r, s[1..])))
  }

  /** Deletion keeps the survivors in their relative order. */
  lemma {:induction false} DeleteCellKeepsOrder(cells: seq<Cell>, id: string)
    ensures IsSubsequence(DeleteCell(cells, id), cells)
  {
    if cells != [] {
      DeleteCellKeepsOrder(cells[1..], id);
      var r := DeleteCell(cells, id);
      if cells[0].id != id {
        assert r == [cells[0]] + DeleteCell(cells[1..], id);
        assert r[0] == cells[0] && r[1..] == DeleteCell(cells[1..], id);
        assert IsSubsequence(r[1..], cells[1..]);
      } else {
        assert r == DeleteCell(cells[1..], id);
        assert IsSubsequence(r, cells[1..]);
      }
    }
  }

  /** Deleting an id no cell carries changes nothing. */
  lemma {:induction false} DeleteCellAbsent(cells: seq<Cell>, id: string)
    requires !HasId(cells, id)
    ensures DeleteCell(cells, id) == cells
  {
    if cells != [] {
      assert cells[0].id != id;
      assert !HasId(cells[1..], id) by {
        forall i | 0 <= i < |cells| - 1 ensures cells[1..][i].id != id {
          assert cells[1..][i] == cells[i + 1];
        }
      }
      DeleteCellAbsent(cells[1..], id);
      assert cells == [cells[0]] + cells[1..];
    }
  }

  /** Filtering a concatenation filters each part. */
  lemma {:induction false} DeleteCellAppend(a: seq<Cell>, b: seq<Cell>, id: string)
    ensures DeleteCell(a + b, id) == DeleteCell(a, id) + DeleteCell(b, id)
  {
    if a != [] {
      DeleteCellAppend(a[1..], b, id);
      var head := if a[0].id == id then [] else [a[0]];
      assert (a + b)[0] == a[0] && (a + b)[1..] == a[1..] + b;
      calc {
        DeleteCell(a + b, id);
        head + DeleteCell(a[1..] + b, id);
        head + (DeleteCell(a[1..], id) + DeleteCell(b, id));
        (head + DeleteCell(a[1..], id)) + DeleteCell(b, id);
        DeleteCell(a, id) + DeleteCell(b, id);
      }
    } else {
      assert a + b == b;
    }
  }

  /** Adding a cell with an id no cell carries and then deleting that id restores the notebook. */
  lemma DeleteAfterAdd(cells: seq<Cell>, id: string, kind: CellType)
    requires !HasId(cells, id)
    ensures DeleteCell(AddCell(cells, id, kind), id) == cells
  {
    DeleteCellAppend(cells, [NewCell(id, kind)], id);
    DeleteCellAbsent(cells, id);
  }

  /** `cells.find(c => c.id === id)`: the first cell with this id, if any. */
  function Find(cells: seq<Cell>, id: string): (r: Option<Cell>)
    ensures r.Some? <==> HasId(cells, id)
    ensures r.Some? ==> r.value.id == id && r.value in cells
  {
    if cells == [] then None
    else if cells[0].id == id then Some(cells[0])
    else
      var r := Find(cells[1..], id);
      assert HasId(cells[1..], id) ==> HasId(cells, id) by {
        if HasId(cells[1..], id) {
          var i :| 0 <= i < |cells[1..]| && cells[1..][i].id == id;
          assert cells[i + 1].id == id;
        }
      }
      assert HasId(cells, id) && cells[0].id != id ==> HasId(cells[1..], id) by {
        if HasId(cells, id) && cells[0].id != id {
          var i :| 0 <= i < |cells| && cells[i].id == id;
          assert cells[1..][i - 1].id == id;
        }
      }
      r
  }

  /** The cell found is the first one with the id, even when ids collide. */
  lemma {:induction false} FindIsFirst(cells: seq<Cell>, id: string, i: int)
    requires 0 <= i < |cells| && cells[i].id == id
    requires forall j :: 0 <= j < i ==> cells[j].id != id
    ensures Find(cells, id) == Some(cells[i])
  {
    if i > 0 {
      FindIsFirst(cells[1..], id, i - 1);
    }
  }
}
