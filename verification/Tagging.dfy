/** Reference rows: how an event's thread position is read from its rows, and how rows naming
    an event, its thread root and the people involved are composed. */
module Tagging {
  import opened Wrappers
  import opened Text

  const TEXT_NOTE_KIND: nat := 1
  const COMMENT_KIND: nat := 1111

  datatype RelayUrl = RelayUrl(url: string)

  /** How a relay hint is read; nothing below depends on what it accepts. */
  type UrlParser = string -> Option<RelayUrl>

  type Row = seq<string>

  datatype Event = Event(id: Id32, pubkey: Id32, createdAt: nat, kind: nat, tags: seq<Row>, content: string)

  datatype Pointer = Pointer(
    eventId: Option<Id32>,
    address: Option<string>,
    external: Option<string>,
    author: Option<Id32>,
    kind: Option<string>,
    relay: Option<RelayUrl>)

  datatype Options = Options(withoutCarriedMentions: bool, withoutAuthor: bool, relay: Option<RelayUrl>)

  const DEFAULT_OPTIONS := Options(false, false, None)

  // ---- reading cells -----------------------------------------------------

  function Cell(row: Row, i: nat): Option<string> {
    if i < |row| && row[i] != "" then Some(row[i]) else None
  }

  predicate Named(row: Row, name: string) {
    Cell(row, 0) == Some(name)
  }

  function Find(rows: seq<Row>, name: string): Option<Row> {
    if rows == [] then None
    else if Named(rows[0], name) then Some(rows[0])
    else Find(rows[1..], name)
  }

  function IdAt(row: Row, i: nat): Option<Id32> {
    var c := Cell(row, i);
    if c.Some? then IdFromHex(c.value) else None
  }

  function RelayAt(parse: UrlParser, row: Row, i: nat): Option<RelayUrl> {
    var c := Cell(row, i);
    if c.Some? then parse(c.value) else None
  }

  function FindCell(rows: seq<Row>, name: string): Option<string> {
    var row := Find(rows, name);
    if row.Some? then Cell(row.value, 1) else None
  }

  function FindId(rows: seq<Row>, name: string): Option<Id32> {
    var row := Find(rows, name);
    if row.Some? then IdAt(row.value, 1) else None
  }

  /** Slot 4 is the author of a marked row; an unmarked NIP-22 row has it in slot 3. */
  function PointerFromE(parse: UrlParser, row: Row): Option<Pointer> {
    var id := IdAt(row, 1);
    if id.None? then None
    else
      var author := if IdAt(row, 4).Some? then IdAt(row, 4) else IdAt(row, 3);
      Some(Pointer(id, None, None, author, None, RelayAt(parse, row, 2)))
  }

  // ---- thread position ---------------------------------------------------

  /** `root` is absent when the event is itself the root. */
  datatype ThreadPosition = ThreadPosition(root: Option<Pointer>, parent: Option<Pointer>)

  predicate HasCommentScope(rows: seq<Row>) {
    Find(rows, "E").Some? || Find(rows, "A").Some? || Find(rows, "I").Some?
  }

  function ReadCommentScope(parse: UrlParser, rows: seq<Row>): ThreadPosition {
    var located := if Find(rows, "E").Some? then Find(rows, "E") else Find(rows, "A");
    var root := Pointer(FindId(rows, "E"), FindCell(rows, "A"), FindCell(rows, "I"), FindId(rows, "P"),
                        FindCell(rows, "K"), if located.Some? then RelayAt(parse, located.value, 2) else None);
    var e := Find(rows, "e");
    var parent := if e.Some? then PointerFromE(parse, e.value) else None;
    ThreadPosition(Some(root), if parent.Some? && parent.value.eventId != root.eventId then parent else None)
  }

  function ERows(rows: seq<Row>): seq<Row> {
    if rows == [] then []
    else if Named(rows[0], "e") then [rows[0]] + ERows(rows[1..])
    else ERows(rows[1..])
  }

  function Marked(rows: seq<Row>, marker: string): Option<Row> {
    if rows == [] then None
    else if Cell(rows[0], 3) == Some(marker) then Some(rows[0])
    else Marked(rows[1..], marker)
  }

  /** The four reading cases of NIP-10. */
  function ReadNip10(parse: UrlParser, rows: seq<Row>): ThreadPosition {
    var e := ERows(rows);
    if e == [] then ThreadPosition(None, None)
    else if Marked(e, "root").Some? then
      var root := PointerFromE(parse, Marked(e, "root").value);
      var parent := if Marked(e, "reply").Some? then PointerFromE(parse, Marked(e, "reply").value) else None;
      var distinct := parent.Some? && (root.None? || parent.value.eventId != root.value.eventId);
      ThreadPosition(root, if distinct then parent else None)
    else if Marked(e, "reply").Some? then ThreadPosition(PointerFromE(parse, Marked(e, "reply").value), None)
    else
      ThreadPosition(PointerFromE(parse, e[0]), if |e| == 1 then None else PointerFromE(parse, e[|e| - 1]))
  }

  function ReadPosition(parse: UrlParser, rows: seq<Row>): ThreadPosition {
    if HasCommentScope(rows) then ReadCommentScope(parse, rows) else ReadNip10(parse, rows)
  }

  // ---- composing rows ----------------------------------------------------

  /** A row without the trailing empty cells it does not need. */
  function Trimmed(cells: Row): Row {
    if |cells| > 2 && cells[|cells| - 1] == "" then Trimmed(cells[..|cells| - 1]) else cells
  }

  method MakeRow(cells: Row) returns (row: Row)
    ensures row == Trimmed(cells)
    ensures forall i: nat :: Cell(row, i) == Cell(cells, i)
    ensures row <= cells && (|row| > 2 ==> row[|row| - 1] != "") && (|cells| >= 2 ==> |row| >= 2)
  {
    row := cells;
    while |row| > 2 && row[|row| - 1] == ""
      invariant Trimmed(row) == Trimmed(cells) && row <= cells && (|cells| >= 2 ==> |row| >= 2)
      invariant forall i: nat | |row| <= i < |cells| :: cells[i] == ""
    {
      row := row[..|row| - 1];
    }
  }

  lemma {:induction false} TrimmedReads(cells: Row, i: nat)
    requires |cells| >= 2
    ensures |Trimmed(cells)| >= 2 && Trimmed(cells)[..2] == cells[..2]
    ensures Cell(Trimmed(cells), i) == Cell(cells, i)
    decreases |cells|
  {
    if |cells| > 2 && cells[|cells| - 1] == "" {
      TrimmedReads(cells[..|cells| - 1], i);
    }
  }

  function Text0(s: Option<Id32>): string {
    if s.Some? then ToHex(s.value) else ""
  }

  function RelayCell(relay: Option<RelayUrl>): string {
    if relay.Some? then relay.value.url else ""
  }

  function MarkedRow(p: Pointer, marker: string): Row {
    Trimmed(["e", Text0(p.eventId), RelayCell(p.relay), marker, Text0(p.author)])
  }

  /** The row, when there is something to put in it. */
  function RowIf(some: bool, cells: Row): seq<Row> {
    if some then [Trimmed(cells)] else []
  }

  function OrEmpty(s: Option<string>): string {
    if s.Some? then s.value else ""
  }

  /** NIP-22 states importance with case: uppercase letters for the root, lowercase for the parent. */
  datatype Letters = Letters(e: string, a: string, i: string, k: string, p: string)

  const UPPER := Letters("E", "A", "I", "K", "P")
  const LOWER := Letters("e", "a", "i", "k", "p")

  function ScopeRows(p: Pointer, l: Letters): seq<Row> {
    RowIf(p.external.Some?, [l.i, OrEmpty(p.external)])
    + RowIf(p.address.Some?, [l.a, OrEmpty(p.address), RelayCell(p.relay), Text0(p.author)])
    + RowIf(p.eventId.Some?, [l.e, Text0(p.eventId), RelayCell(p.relay), Text0(p.author)])
    + RowIf(p.kind.Some?, [l.k, OrEmpty(p.kind)])
  }

  // ---- people ------------------------------------------------------------

  /** The keys that `p` rows name, in row order. */
  function Mentioned(rows: seq<Row>): seq<Id32> {
    if rows == [] then []
    else
      var last := rows[|rows| - 1];
      var head := Mentioned(rows[..|rows| - 1]);
      if Named(last, "p") && IdAt(last, 1).Some? then head + [IdAt(last, 1).value] else head
  }

  /** First occurrences only. */
  function Distinct(xs: seq<Id32>): seq<Id32> {
    if xs == [] then []
    else
      var head, last := Distinct(xs[..|xs| - 1]), xs[|xs| - 1];
      if last in head then head else head + [last]
  }

  lemma {:induction false} DistinctKeepsMembers(xs: seq<Id32>)
    ensures NoRepeats(Distinct(xs)) && forall x :: x in Distinct(xs) <==> x in xs
  {
    if xs != [] {
      DistinctKeepsMembers(xs[..|xs| - 1]);
      assert xs == xs[..|xs| - 1] + [xs[|xs| - 1]];
    }
  }

  /** Some place of the first comes before every place of the second. */
  ghost predicate ComesFirst(xs: seq<Id32>, x: Id32, y: Id32) {
    exists p :: 0 <= p < |xs| && xs[p] == x && forall q | 0 <= q < |xs| && xs[q] == y :: p < q
  }

  /** The keys stand in the order of their first mention. */
  lemma {:induction false} DistinctKeepsOrder(xs: seq<Id32>, i: nat, j: nat)
    requires i < j < |Distinct(xs)|
    ensures ComesFirst(xs, Distinct(xs)[i], Distinct(xs)[j])
  {
    var init, last := xs[..|xs| - 1], xs[|xs| - 1];
    DistinctKeepsMembers(init);
    var x, y := Distinct(xs)[i], Distinct(xs)[j];
    if j < |Distinct(init)| {
      DistinctKeepsOrder(init, i, j);
      var p :| 0 <= p < |init| && init[p] == x && forall q | 0 <= q < |init| && init[q] == y :: p < q;
      assert xs[p] == x && forall q | 0 <= q < |xs| && xs[q] == y :: p < q by {
        forall q | 0 <= q < |xs| && xs[q] == y ensures p < q {
          if q < |init| { assert init[q] == y; }
        }
      }
    } else {
      assert x in Distinct(init) && x in init && y !in init;
      var p :| 0 <= p < |init| && init[p] == x;
      assert forall q | 0 <= q < |init| :: xs[q] == init[q] && xs[q] != y;
      assert xs[p] == x && forall q | 0 <= q < |xs| && xs[q] == y :: p < q;
    }
  }

  function Carried(rows: seq<Row>, options: Options): seq<Id32> {
    if options.withoutCarriedMentions then [] else Distinct(Mentioned(rows))
  }

  method CarriedPubkeys(rows: seq<Row>, options: Options) returns (carried: seq<Id32>)
    ensures carried == Carried(rows, options)
    ensures NoRepeats(carried)
    ensures !options.withoutCarriedMentions ==> forall k :: k in carried <==> k in Mentioned(rows)
  {
    carried := [];
    if options.withoutCarriedMentions {
      return;
    }
    var seen: set<Id32> := {};
    for i := 0 to |rows|
      invariant carried == Distinct(Mentioned(rows[..i]))
      invariant forall k :: k in seen <==> k in carried
    {
      assert rows[..i + 1][..i] == rows[..i];
      if !Named(rows[i], "p") || IdAt(rows[i], 1).None? {
        continue;
      }
      var key := IdAt(rows[i], 1).value;
      var named := Mentioned(rows[..i]) + [key];
      assert named[..|named| - 1] == Mentioned(rows[..i]);
      if key !in seen {
        seen := seen + {key};
        carried := carried + [key];
      }
    }
    assert rows[..|rows|] == rows;
    DistinctKeepsMembers(Mentioned(rows));
  }

  function PersonRow(key: Id32, options: Options): Row {
    Trimmed(["p", ToHex(key), RelayCell(options.relay)])
  }

  function PersonRowsOf(keys: seq<Id32>, options: Options): seq<Row> {
    seq(|keys|, i requires 0 <= i < |keys| => PersonRow(keys[i], options))
  }

  function People(author: Option<Id32>, carried: seq<Id32>, options: Options): seq<Id32> {
    Distinct((if author.Some? && !options.withoutAuthor then [author.value] else []) + carried)
  }

  /** The author comes first, then each carried key that is not the author's. */
  lemma AuthorComesFirst(author: Id32, carried: seq<Id32>, options: Options)
    ensures
      var people := People(Some(author), carried, options);
      && NoRepeats(people)
      && (!options.withoutAuthor ==>
            people != [] && people[0] == author && forall k :: k in people <==> k == author || k in carried)
      && (options.withoutAuthor ==> forall k :: k in people <==> k in carried)
  {
    var all := (if !options.withoutAuthor then [author] else []) + carried;
    DistinctKeepsMembers(all);
    if !options.withoutAuthor { FirstStaysFirst(all); }
  }

  lemma {:induction false} FirstStaysFirst(xs: seq<Id32>)
    requires xs != []
    ensures Distinct(xs) != [] && Distinct(xs)[0] == xs[0]
  {
    if |xs| > 1 { FirstStaysFirst(xs[..|xs| - 1]); } else { assert Distinct(xs[..0]) == []; }
  }

  method PersonRows(author: Option<Id32>, carried: seq<Id32>, options: Options) returns (rows: seq<Row>)
    ensures rows == PersonRowsOf(People(author, carried, options), options)
  {
    var seen: set<Id32> := {};
    rows := [];
    ghost var head: seq<Id32> := [];
    if !options.withoutAuthor && author.Some? {
      seen := {author.value};
      rows := [PersonRow(author.value, options)];
      head := [author.value];
      assert head[..0] == [];
    }
    for i := 0 to |carried|
      invariant rows == PersonRowsOf(Distinct(head + carried[..i]), options)
      invariant forall k :: k in seen <==> k in Distinct(head + carried[..i])
    {
      var all := head + carried[..i + 1];
      assert all[..|all| - 1] == head + carried[..i] && all[|all| - 1] == carried[i];
      if carried[i] !in seen {
        seen := seen + {carried[i]};
        rows := rows + [PersonRow(carried[i], options)];
      }
    }
    assert carried[..|carried|] == carried;
  }

  // ---- event targets -----------------------------------------------------

  predicate IsAddressable(kind: nat) {
    30000 <= kind < 40000
  }

  function Identifier(rows: seq<Row>): string {
    if rows == [] then ""
    else if |rows[0]| > 0 && rows[0][0] == "d" then (if |rows[0]| > 1 then rows[0][1] else "")
    else Identifier(rows[1..])
  }

  /** The identifier is the value of the first `d` row, and empty where that row or its value is missing. */
  lemma {:induction false} IdentifierIsFirst(rows: seq<Row>, i: nat)
    requires i < |rows| && |rows[i]| > 0 && rows[i][0] == "d"
    requires forall j | 0 <= j < i :: |rows[j]| == 0 || rows[j][0] != "d"
    ensures Identifier(rows) == if |rows[i]| > 1 then rows[i][1] else ""
  {
    if i > 0 { IdentifierIsFirst(rows[1..], i - 1); }
  }

  function AddressableCoordinate(e: Event): Option<string> {
    if IsAddressable(e.kind) then Some(PrintCoordinate(Coordinate(e.kind, e.pubkey, Identifier(e.tags)))) else None
  }

  function Target(e: Event, relay: Option<RelayUrl>): Pointer {
    Pointer(Some(e.id), AddressableCoordinate(e), None, Some(e.pubkey), Some(Digits(e.kind)), relay)
  }

  function OrHint(first: Option<RelayUrl>, second: Option<RelayUrl>): Option<RelayUrl> {
    if first.Some? then first else second
  }

  /** The rows naming the target itself, in the dialect the target's own kind threads in. */
  function ThreadRows(parse: UrlParser, e: Event, hint: Option<RelayUrl>): seq<Row> {
    var position := ReadPosition(parse, e.tags);
    var target := Target(e, hint);
    if e.kind != TEXT_NOTE_KIND then ScopeRows(target, LOWER)
    else if position.root.None? then [MarkedRow(target, "root")]
    else [MarkedRow(position.root.value, "root"), MarkedRow(target, "reply")]
  }

  function EventParentRows(parse: UrlParser, e: Event, sources: Option<RelayUrl>, options: Options): seq<Row> {
    ThreadRows(parse, e, OrHint(options.relay, sources))
    + PersonRowsOf(People(Some(e.pubkey), Carried(e.tags, options), options), options)
  }

  function RootPointer(parse: UrlParser, e: Event, hint: Option<RelayUrl>): Pointer {
    var read := ReadPosition(parse, e.tags).root;
    var root := if read.Some?
                then read.value.(kind := if read.value.kind.Some? then read.value.kind else Some(Digits(e.kind)))
                else Target(e, None);
    root.(relay := OrHint(root.relay, hint))
  }

  function EventRootRows(parse: UrlParser, e: Event, sources: Option<RelayUrl>, options: Options): seq<Row> {
    var root := RootPointer(parse, e, OrHint(options.relay, sources));
    ScopeRows(root, UPPER) + RowIf(root.author.Some? && !options.withoutAuthor, ["P", Text0(root.author)])
  }
}
