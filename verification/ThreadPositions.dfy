/** How a thread position is read from any rows at all, row by row, and that the lenient reader agrees with the strict
    decoder wherever that decoder accepts. */
module ThreadPositions {
  import opened Wrappers
  import opened Text
  import opened Tagging
  import opened Comments

  // ---- rows by their places ----------------------------------------------

  predicate RowAt(rows: seq<Row>, name: string, i: nat) {
    i < |rows| && |rows[i]| > 0 && rows[i][0] == name
  }

  ghost predicate FirstRow(rows: seq<Row>, name: string, i: nat) {
    RowAt(rows, name, i) && forall j: nat | j < i :: !RowAt(rows, name, j)
  }

  predicate MarkedAt(rows: seq<Row>, marker: string, i: nat) {
    RowAt(rows, "e", i) && |rows[i]| > 3 && rows[i][3] == marker
  }

  ghost predicate FirstMarked(rows: seq<Row>, marker: string, i: nat) {
    MarkedAt(rows, marker, i) && forall j: nat | j < i :: !MarkedAt(rows, marker, j)
  }

  ghost predicate Unscoped(rows: seq<Row>) {
    forall i: nat :: !RowAt(rows, "E", i) && !RowAt(rows, "A", i) && !RowAt(rows, "I", i)
  }

  ghost predicate NoneMarked(rows: seq<Row>, marker: string) {
    forall i: nat :: !MarkedAt(rows, marker, i)
  }

  lemma {:induction false} FindsTheFirst(rows: seq<Row>, name: string)
    requires name != ""
    ensures Find(rows, name).None? <==> forall i: nat :: !RowAt(rows, name, i)
    ensures forall i: nat | FirstRow(rows, name, i) :: Find(rows, name) == Some(rows[i])
  {
    if rows != [] {
      FindsTheFirst(rows[1..], name);
      assert RowAt(rows, name, 0) <==> Named(rows[0], name);
      forall i: nat | 0 < i ensures RowAt(rows, name, i) <==> RowAt(rows[1..], name, i - 1) {}
      forall i: nat | FirstRow(rows, name, i) && i > 0 ensures FirstRow(rows[1..], name, i - 1) {
        assert !RowAt(rows, name, 0);
        forall j: nat | j < i - 1 ensures !RowAt(rows[1..], name, j) {
          assert !RowAt(rows, name, j + 1);
        }
      }
      forall i: nat | RowAt(rows[1..], name, i) ensures RowAt(rows, name, i + 1) {}
    }
  }

  // ---- what one row names ------------------------------------------------

  /** An `e` row names the event in its second cell, the author in its fifth cell or else in its fourth, and the relay
      in its third. */
  lemma RowNames(parse: UrlParser, row: Row)
    ensures
      var p := PointerFromE(parse, row);
      && (p.Some? <==> |row| > 1 && IdFromHex(row[1]).Some?)
      && (p.Some? ==>
            && p.value.eventId == IdFromHex(row[1])
            && p.value.author == (if |row| > 4 && IdFromHex(row[4]).Some? then IdFromHex(row[4])
                                  else if |row| > 3 then IdFromHex(row[3]) else None)
            && p.value.relay == (if |row| > 2 && row[2] != "" then parse(row[2]) else None)
            && p.value.address.None? && p.value.external.None? && p.value.kind.None?)
  {
    MarkersAreNotIds();
    hide IdFromHex;
  }

  // ---- the four cases of NIP-10 ------------------------------------------

  lemma {:induction false} ERowsByPlace(rows: seq<Row>)
    ensures ERows(rows) == [] <==> forall i: nat :: !RowAt(rows, "e", i)
    ensures forall i: nat | FirstRow(rows, "e", i) :: ERows(rows) != [] && ERows(rows)[0] == rows[i]
  {
    if rows != [] {
      ERowsByPlace(rows[1..]);
      assert RowAt(rows, "e", 0) <==> Named(rows[0], "e");
      forall i: nat | RowAt(rows[1..], "e", i) ensures RowAt(rows, "e", i + 1) {}
      forall i: nat | 0 < i && RowAt(rows, "e", i) ensures RowAt(rows[1..], "e", i - 1) {}
      forall i: nat | FirstRow(rows, "e", i) && i > 0 ensures FirstRow(rows[1..], "e", i - 1) {
        assert !RowAt(rows, "e", 0);
        forall j: nat | j < i - 1 ensures !RowAt(rows[1..], "e", j) {
          assert !RowAt(rows, "e", j + 1);
        }
      }
    }
  }

  ghost predicate LastRow(rows: seq<Row>, name: string, j: nat) {
    RowAt(rows, name, j) && forall k: nat | k > j :: !RowAt(rows, name, k)
  }

  lemma {:induction false} LastERow(rows: seq<Row>, j: nat)
    requires LastRow(rows, "e", j)
    ensures ERows(rows) != [] && ERows(rows)[|ERows(rows)| - 1] == rows[j]
    ensures |ERows(rows)| == 1 <==> FirstRow(rows, "e", j)
  {
    assert RowAt(rows, "e", 0) <==> Named(rows[0], "e");
    ERowsByPlace(rows[1..]);
    if j == 0 {
      forall i: nat ensures !RowAt(rows[1..], "e", i) {
        assert !RowAt(rows, "e", i + 1);
      }
    } else {
      assert RowAt(rows[1..], "e", j - 1);
      forall k: nat | k > j - 1 ensures !RowAt(rows[1..], "e", k) {
        assert !RowAt(rows, "e", k + 1);
      }
      LastERow(rows[1..], j - 1);
      if FirstRow(rows[1..], "e", j - 1) && !RowAt(rows, "e", 0) {
        forall k: nat | k < j ensures !RowAt(rows, "e", k) {
          if k > 0 { assert !RowAt(rows[1..], "e", k - 1); }
        }
      }
      if FirstRow(rows, "e", j) {
        assert !RowAt(rows, "e", 0);
        forall k: nat | k < j - 1 ensures !RowAt(rows[1..], "e", k) {
          assert !RowAt(rows, "e", k + 1);
        }
      }
    }
  }

  lemma {:induction false} MarkedByPlace(rows: seq<Row>, marker: string)
    requires marker != ""
    ensures Marked(ERows(rows), marker).None? <==> NoneMarked(rows, marker)
    ensures forall i: nat | FirstMarked(rows, marker, i) :: Marked(ERows(rows), marker) == Some(rows[i])
  {
    if rows != [] {
      MarkedByPlace(rows[1..], marker);
      assert RowAt(rows, "e", 0) <==> Named(rows[0], "e");
      assert MarkedAt(rows, marker, 0) <==> Named(rows[0], "e") && Cell(rows[0], 3) == Some(marker);
      if Named(rows[0], "e") {
        assert ERows(rows)[0] == rows[0] && ERows(rows)[1..] == ERows(rows[1..]);
      }
      forall i: nat | MarkedAt(rows[1..], marker, i) ensures MarkedAt(rows, marker, i + 1) {}
      forall i: nat | 0 < i && MarkedAt(rows, marker, i) ensures MarkedAt(rows[1..], marker, i - 1) {}
      forall i: nat | FirstMarked(rows, marker, i) && i > 0 ensures FirstMarked(rows[1..], marker, i - 1) {
        assert !MarkedAt(rows, marker, 0);
        forall j: nat | j < i - 1 ensures !MarkedAt(rows[1..], marker, j) {
          assert !MarkedAt(rows, marker, j + 1);
        }
      }
    }
  }

  lemma UnscopedReadsNip10(parse: UrlParser, rows: seq<Row>)
    requires Unscoped(rows)
    ensures ReadPosition(parse, rows) == ReadNip10(parse, rows)
  {
    FindsTheFirst(rows, "E");
    FindsTheFirst(rows, "A");
    FindsTheFirst(rows, "I");
    hide Find, ReadNip10;
  }

  /** Without an `e` row the event is a root itself. */
  lemma NoReferenceIsARoot(parse: UrlParser, rows: seq<Row>)
    requires Unscoped(rows) && forall i: nat :: !RowAt(rows, "e", i)
    ensures ReadPosition(parse, rows) == ThreadPosition(None, None)
  {
    UnscopedReadsNip10(parse, rows);
    ERowsByPlace(rows);
  }

  /** The first row marked "root" names the root; the first marked "reply" names the parent, if it names an event at
      all and another one than the root. */
  lemma RootMarkerNamesTheRoot(parse: UrlParser, rows: seq<Row>, i: nat)
    requires Unscoped(rows) && FirstMarked(rows, "root", i)
    ensures
      var p, root := ReadPosition(parse, rows), PointerFromE(parse, rows[i]);
      && p.root == root
      && (NoneMarked(rows, "reply") ==> p.parent.None?)
      && forall j: nat | FirstMarked(rows, "reply", j) ::
           var parent := PointerFromE(parse, rows[j]);
           var another := parent.Some? && (root.None? || root.value.eventId != parent.value.eventId);
           p.parent == if another then parent else None
  {
    UnscopedReadsNip10(parse, rows);
    MarkedByPlace(rows, "root");
    MarkedByPlace(rows, "reply");
    hide PointerFromE, Marked, ERows;
  }

  /** With a "reply" marker and no "root" marker, the marked row names the root and there is no parent. */
  lemma ReplyMarkerAloneNamesTheRoot(parse: UrlParser, rows: seq<Row>, i: nat)
    requires Unscoped(rows) && NoneMarked(rows, "root") && FirstMarked(rows, "reply", i)
    ensures ReadPosition(parse, rows) == ThreadPosition(PointerFromE(parse, rows[i]), None)
  {
    UnscopedReadsNip10(parse, rows);
    MarkedByPlace(rows, "root");
    MarkedByPlace(rows, "reply");
    hide PointerFromE, Marked, ERows;
  }

  /** Without markers the first `e` row names the root and the last one the parent; a single row names the root only. */
  lemma PositionsDecideUnmarked(parse: UrlParser, rows: seq<Row>, i: nat, j: nat)
    requires Unscoped(rows) && NoneMarked(rows, "root") && NoneMarked(rows, "reply")
    requires FirstRow(rows, "e", i) && LastRow(rows, "e", j)
    ensures ReadPosition(parse, rows).root == PointerFromE(parse, rows[i])
    ensures ReadPosition(parse, rows).parent == if i == j then None else PointerFromE(parse, rows[j])
  {
    UnscopedReadsNip10(parse, rows);
    MarkedByPlace(rows, "root");
    MarkedByPlace(rows, "reply");
    ERowsByPlace(rows);
    LastERow(rows, j);
    hide PointerFromE, Marked, ERows;
  }

  // ---- the comment scope -------------------------------------------------

  /** What the first row of that name has in its cell i, if there is such a row. */
  ghost predicate FirstCellIs(rows: seq<Row>, name: string, i: nat, cell: Option<string>) {
    && ((forall k: nat :: !RowAt(rows, name, k)) ==> cell.None?)
    && (forall k: nat | FirstRow(rows, name, k) ::
          cell == if i < |rows[k]| && rows[k][i] != "" then Some(rows[k][i]) else None)
  }

  function IdOf(cell: Option<string>): Option<Id32> {
    if cell.Some? then IdFromHex(cell.value) else None
  }

  function UrlOf(parse: UrlParser, cell: Option<string>): Option<RelayUrl> {
    if cell.Some? then parse(cell.value) else None
  }

  /** In a comment scope the uppercase rows name the root, each letter's first row for its own cell, with the relay of
      the `E` row, or of the `A` row where there is no `E` row; the first `e` row names the parent, unless it names
      the root's event or none. */
  lemma ScopeNamesTheRoot(parse: UrlParser, rows: seq<Row>, event: Option<string>, address: Option<string>,
                          external: Option<string>, author: Option<string>, kind: Option<string>, hint: Option<string>)
    requires !Unscoped(rows)
    requires FirstCellIs(rows, "E", 1, event) && FirstCellIs(rows, "A", 1, address)
    requires FirstCellIs(rows, "I", 1, external) && FirstCellIs(rows, "P", 1, author) && FirstCellIs(rows, "K", 1, kind)
    requires FirstCellIs(rows, if exists k: nat :: RowAt(rows, "E", k) then "E" else "A", 2, hint)
    ensures
      var p := ReadPosition(parse, rows);
      && p.root == Some(Pointer(IdOf(event), address, external, IdOf(author), kind, UrlOf(parse, hint)))
      && ((forall k: nat :: !RowAt(rows, "e", k)) ==> p.parent.None?)
      && forall k: nat | FirstRow(rows, "e", k) ::
           var parent := PointerFromE(parse, rows[k]);
           p.parent == if parent.Some? && parent.value.eventId != IdOf(event) then parent else None
  {
    CellIsUnique(rows, "E", 1, event);
    CellIsUnique(rows, "A", 1, address);
    CellIsUnique(rows, "I", 1, external);
    CellIsUnique(rows, "P", 1, author);
    CellIsUnique(rows, "K", 1, kind);
    FindsTheFirst(rows, "E");
    FindsTheFirst(rows, "A");
    FindsTheFirst(rows, "I");
    FindsTheFirst(rows, "e");
    CellIsUnique(rows, if exists k: nat :: RowAt(rows, "E", k) then "E" else "A", 2, hint);
    hide Find, FirstCellIs, PointerFromE, FirstRow, RowAt, Cell;
  }

  lemma CellIsUnique(rows: seq<Row>, name: string, i: nat, cell: Option<string>)
    requires name != "" && FirstCellIs(rows, name, i, cell)
    ensures cell == if Find(rows, name).Some? then Cell(Find(rows, name).value, i) else None
  {
    FindsTheFirst(rows, name);
    if Find(rows, name).Some? {
      var k := SomeFirst(rows, name);
    }
  }

  lemma SomeFirst(rows: seq<Row>, name: string) returns (i: nat)
    requires exists k: nat :: RowAt(rows, name, k)
    ensures FirstRow(rows, name, i)
  {
    i :| RowAt(rows, name, i);
    while exists j: nat :: j < i && RowAt(rows, name, j)
      invariant RowAt(rows, name, i)
      decreases i
    {
      var j: nat :| j < i && RowAt(rows, name, j);
      i := j;
    }
  }
}
