/** Replayable edits of replaceable lists: the NIP-02 contact list and the NIP-29 group list. */
module ListEdits {
  import opened Wrappers
  import opened Text

  type Row = seq<string>

  /** How a relay URL is read; a URL in normal form reads as itself. */
  type UrlParser = string -> Option<string>

  /** What one edit is about: a followed key, a group at a host, or a relay. */
  datatype Target =
    | Person(key: Id32)
    | Group(id: string, host: string)
    | Relay(url: string)
  {
    predicate Normal(parse: UrlParser) {
      match this
      case Person(_) => true
      case Group(_, host) => parse(host) == Some(host)
      case Relay(url) => parse(url) == Some(url)
    }
  }

  predicate Matches(parse: UrlParser, row: Row, t: Target) {
    match t
    case Person(key) => |row| > 1 && row[0] == "p" && row[1] == ToHex(key)
    case Group(id, host) => |row| > 2 && row[0] == "group" && row[1] == id && parse(row[2]) == Some(host)
    case Relay(url) => |row| > 1 && row[0] == "r" && parse(row[1]) == Some(url)
  }

  datatype Edit = Add(target: Target, name: Option<string>) | Remove(target: Target)

  function NewRow(e: Edit): Row
    requires e.Add?
  {
    match e.target
    case Person(key) => ["p", ToHex(key)]
    case Group(id, host) => ["group", id, host] + if e.name.Some? then [e.name.value] else []
    case Relay(url) => ["r", url]
  }

  lemma HexIsInjective(a: Id32, b: Id32)
    requires ToHex(a) == ToHex(b)
    ensures a == b
  {
    IdRoundTrip(a);
    IdRoundTrip(b);
  }

  /** A row belongs to one target at most. */
  lemma OneTarget(parse: UrlParser, row: Row, t: Target, u: Target)
    requires Matches(parse, row, t) && Matches(parse, row, u)
    ensures t == u
  {
    if t.Person? && u.Person? { HexIsInjective(t.key, u.key); }
  }

  /** The rows of a target: the name and the target's own cells come first, and anything may follow. */
  lemma RowsOfTargets(parse: UrlParser, row: Row, key: Id32, id: string, url: string)
    ensures Matches(parse, row, Person(key)) <==> exists rest :: row == ["p", ToHex(key)] + rest
    ensures Matches(parse, row, Group(id, url)) <==>
      exists host, rest :: row == ["group", id, host] + rest && parse(host) == Some(url)
    ensures Matches(parse, row, Relay(url)) <==>
      exists text, rest :: row == ["r", text] + rest && parse(text) == Some(url)
  {
    hide ToHex;
    if Matches(parse, row, Person(key)) { assert row == ["p", ToHex(key)] + row[2..]; }
    if Matches(parse, row, Group(id, url)) { assert row == ["group", id, row[2]] + row[3..]; }
    if Matches(parse, row, Relay(url)) { assert row == ["r", row[1]] + row[2..]; }
  }

  // ---- applying edits ----------------------------------------------------

  function Count(parse: UrlParser, rows: seq<Row>, t: Target): nat {
    if rows == [] then 0
    else Count(parse, rows[..|rows| - 1], t) + if Matches(parse, rows[|rows| - 1], t) then 1 else 0
  }

  function Without(parse: UrlParser, rows: seq<Row>, t: Target): seq<Row> {
    if rows == [] then []
    else
      var head, last := Without(parse, rows[..|rows| - 1], t), rows[|rows| - 1];
      if Matches(parse, last, t) then head else head + [last]
  }

  function Applied(parse: UrlParser, rows: seq<Row>, e: Edit): seq<Row> {
    match e
    case Add(t, _) => if Count(parse, rows, t) > 0 then rows else rows + [NewRow(e)]
    case Remove(t) => Without(parse, rows, t)
  }

  function AppliedAll(parse: UrlParser, rows: seq<Row>, edits: seq<Edit>): seq<Row> {
    if edits == [] then rows else Applied(parse, AppliedAll(parse, rows, edits[..|edits| - 1]), edits[|edits| - 1])
  }

  method AnyMatches(parse: UrlParser, rows: seq<Row>, t: Target) returns (any: bool)
    ensures any <==> Count(parse, rows, t) > 0
  {
    any := false;
    for i := 0 to |rows|
      invariant !any && Count(parse, rows[..i], t) == 0
    {
      assert rows[..i + 1][..i] == rows[..i];
      if Matches(parse, rows[i], t) {
        CountGrows(parse, rows, t, i + 1);
        return true;
      }
    }
    assert rows[..|rows|] == rows;
  }

  lemma {:induction false} CountGrows(parse: UrlParser, rows: seq<Row>, t: Target, i: nat)
    requires i <= |rows|
    ensures Count(parse, rows[..i], t) <= Count(parse, rows, t)
  {
    if i == |rows| {
      assert rows[..i] == rows;
    } else {
      CountGrows(parse, rows[..|rows| - 1], t, i);
      assert rows[..|rows| - 1][..i] == rows[..i];
    }
  }

  method Retain(parse: UrlParser, rows: seq<Row>, t: Target) returns (kept: seq<Row>)
    ensures kept == Without(parse, rows, t)
  {
    kept := [];
    for i := 0 to |rows|
      invariant kept == Without(parse, rows[..i], t)
    {
      assert rows[..i + 1][..i] == rows[..i];
      if !Matches(parse, rows[i], t) {
        kept := kept + [rows[i]];
      }
    }
    assert rows[..|rows|] == rows;
  }

  method ApplyEdits(parse: UrlParser, current: seq<Row>, edits: seq<Edit>) returns (rows: seq<Row>)
    ensures rows == AppliedAll(parse, current, edits)
  {
    rows := current;
    for i := 0 to |edits|
      invariant rows == AppliedAll(parse, current, edits[..i])
    {
      assert edits[..i + 1][..i] == edits[..i];
      if edits[i].Add? {
        var any := AnyMatches(parse, rows, edits[i].target);
        if !any {
          rows := rows + [NewRow(edits[i])];
        }
      } else {
        rows := Retain(parse, rows, edits[i].target);
      }
    }
    assert edits[..|edits|] == edits;
  }

  ghost predicate Present(parse: UrlParser, rows: seq<Row>, t: Target) {
    exists i :: 0 <= i < |rows| && Matches(parse, rows[i], t)
  }

  lemma {:induction false} CountIsPresence(parse: UrlParser, rows: seq<Row>, t: Target)
    ensures Count(parse, rows, t) > 0 <==> Present(parse, rows, t)
  {
    if rows != [] {
      var init := rows[..|rows| - 1];
      CountIsPresence(parse, init, t);
      if i :| 0 <= i < |init| && Matches(parse, init[i], t) { assert Matches(parse, rows[i], t); }
      if i :| 0 <= i < |rows| && Matches(parse, rows[i], t) {
        if i < |init| { assert Matches(parse, init[i], t); }
      }
    }
  }

  /** An addition leaves a list that has the target alone, and otherwise puts the target's row, spelled out, at the
      end. */
  lemma AdditionsAreSpelled(parse: UrlParser, rows: seq<Row>, t: Target, name: Option<string>)
    ensures
      var row := match t
        case Person(key) => ["p", ToHex(key)]
        case Group(id, host) => if name.Some? then ["group", id, host, name.value] else ["group", id, host]
        case Relay(url) => ["r", url];
      Applied(parse, rows, Add(t, name)) == if Present(parse, rows, t) then rows else rows + [row]
  {
    CountIsPresence(parse, rows, t);
    if t.Group? {
      assert ["group", t.id, t.host] + [] == ["group", t.id, t.host];
      if name.Some? { assert ["group", t.id, t.host] + [name.value] == ["group", t.id, t.host, name.value]; }
    }
    hide Matches, Count, ToHex;
  }

  /** A removal leaves no row of the target. */
  lemma RemovalsAreComplete(parse: UrlParser, rows: seq<Row>, t: Target)
    ensures !Present(parse, Applied(parse, rows, Remove(t)), t)
  {
    CountWithout(parse, rows, t, t);
    CountIsPresence(parse, Without(parse, rows, t), t);
  }

  // ---- what edits do to a target -----------------------------------------

  /** The last edit about a target decides. */
  function LastEdit(edits: seq<Edit>, t: Target): Option<Edit> {
    if edits == [] then None
    else if edits[|edits| - 1].target == t then Some(edits[|edits| - 1])
    else LastEdit(edits[..|edits| - 1], t)
  }

  /** How many rows one target has after an edit about it. */
  function CountAfter(n: nat, edits: seq<Edit>, t: Target): nat {
    if edits == [] then n
    else
      var before, last := CountAfter(n, edits[..|edits| - 1], t), edits[|edits| - 1];
      if last.target != t then before
      else if last.Remove? then 0
      else if before == 0 then 1
      else before
  }

  ghost predicate Normalized(parse: UrlParser, edits: seq<Edit>) {
    forall e | e in edits :: e.target.Normal(parse)
  }

  lemma NewRowMatches(parse: UrlParser, e: Edit, t: Target)
    requires e.Add? && e.target.Normal(parse)
    ensures Matches(parse, NewRow(e), t) <==> t == e.target
  {
    assert Matches(parse, NewRow(e), e.target);
    if Matches(parse, NewRow(e), t) { OneTarget(parse, NewRow(e), t, e.target); }
  }

  lemma {:induction false} CountWithout(parse: UrlParser, rows: seq<Row>, t: Target, u: Target)
    ensures Count(parse, Without(parse, rows, t), u) == if t == u then 0 else Count(parse, rows, u)
  {
    if rows != [] {
      var init, last := rows[..|rows| - 1], rows[|rows| - 1];
      CountWithout(parse, init, t, u);
      if Matches(parse, last, t) {
        if Matches(parse, last, u) { OneTarget(parse, last, t, u); }
      } else {
        var kept := Without(parse, init, t) + [last];
        assert kept[..|kept| - 1] == Without(parse, init, t);
      }
    }
  }

  /** One edit leaves its own target with no row or at least one, and every other target as it was. */
  lemma CountOfEdit(parse: UrlParser, rows: seq<Row>, e: Edit, t: Target)
    requires e.target.Normal(parse)
    ensures Count(parse, Applied(parse, rows, e), t) == CountAfter(Count(parse, rows, t), [e], t)
  {
    assert [e][..0] == [];
    if e.Remove? {
      CountWithout(parse, rows, e.target, t);
    } else {
      NewRowMatches(parse, e, t);
      var more := rows + [NewRow(e)];
      assert more[..|more| - 1] == rows;
    }
    hide Matches, NewRow, Without;
  }

  /** The number of rows of each target is known from the source's own number and the edits about it alone. */
  lemma {:induction false} CountsFollowEdits(parse: UrlParser, rows: seq<Row>, edits: seq<Edit>, t: Target)
    requires Normalized(parse, edits)
    ensures Count(parse, AppliedAll(parse, rows, edits), t) == CountAfter(Count(parse, rows, t), edits, t)
  {
    if edits != [] {
      var init, last := edits[..|edits| - 1], edits[|edits| - 1];
      CountsFollowEdits(parse, rows, init, t);
      assert last in edits;
      CountOfEdit(parse, AppliedAll(parse, rows, init), last, t);
      hide Count, Applied, Matches;
      assert [last][..0] == [];
    }
  }

  /** Whatever the source, a touched target ends present exactly when its last edit adds it. */
  lemma {:induction false} LastEditDecides(parse: UrlParser, rows: seq<Row>, edits: seq<Edit>, t: Target)
    requires Normalized(parse, edits) && LastEdit(edits, t).Some?
    ensures Count(parse, AppliedAll(parse, rows, edits), t) > 0 <==> LastEdit(edits, t).value.Add?
  {
    CountsFollowEdits(parse, rows, edits, t);
    CountAfterLast(Count(parse, rows, t), edits, t);
  }

  lemma {:induction false} CountAfterLast(n: nat, edits: seq<Edit>, t: Target)
    ensures LastEdit(edits, t).Some? ==> (CountAfter(n, edits, t) > 0 <==> LastEdit(edits, t).value.Add?)
    ensures CountAfter(n, edits, t) <= if n > 1 then n else 1
    ensures LastEdit(edits, t).None? ==> CountAfter(n, edits, t) == n
  {
    if edits != [] { CountAfterLast(n, edits[..|edits| - 1], t); }
  }

  /** No target gains a second row. */
  lemma NoSecondRow(parse: UrlParser, rows: seq<Row>, edits: seq<Edit>, t: Target)
    requires Normalized(parse, edits)
    ensures Count(parse, AppliedAll(parse, rows, edits), t)
      <= if Count(parse, rows, t) > 1 then Count(parse, rows, t) else 1
  {
    CountsFollowEdits(parse, rows, edits, t);
    CountAfterLast(Count(parse, rows, t), edits, t);
  }

  // ---- what edits leave alone --------------------------------------------

  ghost predicate Touched(parse: UrlParser, row: Row, edits: seq<Edit>) {
    exists i :: 0 <= i < |edits| && Matches(parse, row, edits[i].target)
  }

  ghost function Untouched(parse: UrlParser, rows: seq<Row>, edits: seq<Edit>): seq<Row> {
    if rows == [] then []
    else
      var head, last := Untouched(parse, rows[..|rows| - 1], edits), rows[|rows| - 1];
      if Touched(parse, last, edits) then head else head + [last]
  }

  lemma {:induction false} UntouchedByRemoval(parse: UrlParser, rows: seq<Row>, t: Target, all: seq<Edit>, k: nat)
    requires k < |all| && all[k].target == t
    ensures Untouched(parse, Without(parse, rows, t), all) == Untouched(parse, rows, all)
  {
    if rows != [] {
      var init, last := rows[..|rows| - 1], rows[|rows| - 1];
      UntouchedByRemoval(parse, init, t, all, k);
      if Matches(parse, last, t) {
        assert Touched(parse, last, all);
      } else {
        var kept := Without(parse, init, t) + [last];
        assert kept[..|kept| - 1] == Without(parse, init, t);
      }
    }
  }

  lemma {:induction false} PrefixLeavesOthers(parse: UrlParser, rows: seq<Row>, edits: seq<Edit>, all: seq<Edit>)
    requires Normalized(parse, all) && edits <= all
    ensures Untouched(parse, AppliedAll(parse, rows, edits), all) == Untouched(parse, rows, all)
  {
    if edits != [] {
      var init, last := edits[..|edits| - 1], edits[|edits| - 1];
      PrefixLeavesOthers(parse, rows, init, all);
      var before := AppliedAll(parse, rows, init);
      assert last == all[|edits| - 1] && last in all;
      if last.Remove? {
        UntouchedByRemoval(parse, before, last.target, all, |edits| - 1);
      } else {
        NewRowMatches(parse, last, last.target);
        var more := before + [NewRow(last)];
        assert more[..|more| - 1] == before;
        assert Touched(parse, NewRow(last), all);
      }
    }
  }

  /** Rows no edit is about survive, cell for cell and in their order. */
  lemma OthersSurvive(parse: UrlParser, rows: seq<Row>, edits: seq<Edit>)
    requires Normalized(parse, edits)
    ensures Untouched(parse, AppliedAll(parse, rows, edits), edits) == Untouched(parse, rows, edits)
  {
    PrefixLeavesOthers(parse, rows, edits, edits);
  }

  // ---- the contact list's operations -------------------------------------

  const FOLLOW_VERSION: byte := 1

  datatype FollowError = WrongLength | UnsupportedVersion | InvalidChange | InvalidKey

  function EncodeFollow(key: Id32, follow: bool): seq<byte> {
    [FOLLOW_VERSION, if follow then 1 else 0] + key
  }

  /** An operation is a version octet 1, an octet that is 1 to follow and 0 to unfollow, and the key. */
  lemma FollowLayout(key: Id32, follow: bool)
    ensures
      var bytes := EncodeFollow(key, follow);
      |bytes| == 34 && bytes[0] == 1 && bytes[1] == (if follow then 1 else 0) && bytes[2..] == key
  {
  }

  /** `isKey` says which 32 bytes are a public key. */
  function DecodeFollow(bytes: seq<byte>, isKey: Id32 -> bool): Result<Edit, FollowError> {
    if |bytes| != 34 then Err(WrongLength)
    else if bytes[0] != FOLLOW_VERSION then Err(UnsupportedVersion)
    else if bytes[1] != 0 && bytes[1] != 1 then Err(InvalidChange)
    else if !isKey(bytes[2..]) then Err(InvalidKey)
    else Ok(if bytes[1] == 1 then Add(Person(bytes[2..]), None) else Remove(Person(bytes[2..])))
  }

  function FollowEdit(key: Id32, follow: bool): Edit {
    if follow then Add(Person(key), None) else Remove(Person(key))
  }

  /** An operation decodes to an edit exactly when it is that edit's encoding. */
  lemma FollowRoundTrip(bytes: seq<byte>, key: Id32, follow: bool, isKey: Id32 -> bool)
    requires isKey(key)
    ensures DecodeFollow(bytes, isKey) == Ok(FollowEdit(key, follow)) <==> bytes == EncodeFollow(key, follow)
  {
    assert EncodeFollow(key, follow)[2..] == key;
    if |bytes| == 34 { assert bytes == [bytes[0], bytes[1]] + bytes[2..]; }
  }

  ghost predicate Decodable(operations: seq<seq<byte>>, isKey: Id32 -> bool) {
    forall i | 0 <= i < |operations| :: DecodeFollow(operations[i], isKey).Ok?
  }

  function Decoded(operations: seq<seq<byte>>, isKey: Id32 -> bool): seq<Edit>
    requires Decodable(operations, isKey)
  {
    seq(|operations|, i requires 0 <= i < |operations| => DecodeFollow(operations[i], isKey).value)
  }

  /** The error is that of the first operation that does not decode. */
  ghost predicate FirstBad(operations: seq<seq<byte>>, isKey: Id32 -> bool, i: nat, error: FollowError) {
    i < |operations| && Decodable(operations[..i], isKey) && DecodeFollow(operations[i], isKey) == Err(error)
  }

  /** All operations apply or none does. */
  method ApplyFollowOperations(parse: UrlParser, current: seq<Row>, operations: seq<seq<byte>>, isKey: Id32 -> bool)
    returns (r: Result<seq<Row>, FollowError>)
    ensures r.Ok? <==> Decodable(operations, isKey)
    ensures r.Ok? ==> r.value == AppliedAll(parse, current, Decoded(operations, isKey))
    ensures r.Err? ==> exists i :: FirstBad(operations, isKey, i, r.error)
  {
    var rows := current;
    for i := 0 to |operations|
      invariant Decodable(operations[..i], isKey)
      invariant rows == AppliedAll(parse, current, Decoded(operations[..i], isKey))
    {
      var e := DecodeFollow(operations[i], isKey);
      if e.Err? {
        assert FirstBad(operations, isKey, i, e.error);
        return Err(e.error);
      }
      ghost var all := Decoded(operations[..i + 1], isKey);
      assert all[..|all| - 1] == Decoded(operations[..i], isKey);
      rows := ApplyEdits(parse, rows, [e.value]);
      assert AppliedAll(parse, AppliedAll(parse, current, Decoded(operations[..i], isKey)), [e.value]) == rows by {
        assert [e.value][..0] == [];
      }
    }
    assert operations[..|operations|] == operations;
    r := Ok(rows);
  }
}
