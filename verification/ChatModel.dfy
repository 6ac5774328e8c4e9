/** The list model of client-cpp/gui/src/chat_model.cpp: rows changed in place, with a
    notification to whoever caches them, and the serialization of client-cpp/gui/src/chat_bridge.cpp. */
module ChatModel {
  import opened Digits

  const MAX_ROWS := 1000
  const MAX_SERIALIZED := 500

  /** `Null` is the invalid QVariant a missing key gives. */
  datatype Value = Null | Text(text: string) | Number(number: int) | Flag(flag: bool)

  type Row = map<string, Value>
  type Roles = set<string>
  type Snapshot = seq<Row>

  function Get(row: Row, key: string): Value {
    if key in row then row[key] else Null
  }

  /** QVariant::toString. */
  function ToText(v: Value): string {
    match v
    case Null => ""
    case Text(text) => text
    case Number(n) => Signed(n)
    case Flag(b) => if b then "true" else "false"
  }

  /** Rows after a call, and whether it notified. */
  datatype Result = Result(rows: seq<Row>, notified: bool)

  // ---------- Serialization ----------

  function View(roles: Roles, row: Row): Row {
    map k | k in roles :: Get(row, k)
  }

  function Last<T>(s: seq<T>, n: nat): seq<T> {
    if |s| > n then s[|s| - n..] else s
  }

  function Views(roles: Roles, rows: seq<Row>): (s: Snapshot)
    ensures |s| == |rows| && forall i :: 0 <= i < |rows| ==> s[i] == View(roles, rows[i])
  {
    if rows == [] then [] else [View(roles, rows[0])] + Views(roles, rows[1..])
  }

  /** serializeModel: the last 500 rows as the roles show them. */
  function Serialize(roles: Roles, rows: seq<Row>): Snapshot {
    Views(roles, Last(rows, MAX_SERIALIZED))
  }

  // ---------- Operations ----------

  function FindFrom(rows: seq<Row>, key: string, value: Value, i: nat): int
    requires i <= |rows|
    decreases |rows| - i
  {
    if i == |rows| then -1 else if Get(rows[i], key) == value then i else FindFrom(rows, key, value, i + 1)
  }

  function FindRow(rows: seq<Row>, key: string, value: Value): int {
    FindFrom(rows, key, value, 0)
  }

  function UpdateRow(rows: seq<Row>, i: int, values: Row): Result {
    if i < 0 || i >= |rows| || values == map[] then Result(rows, false)
    else Result(rows[i := rows[i] + values], true)
  }

  /** The comparison inside updateRows. */
  predicate Differs(row: Row, values: Row) {
    exists k | k in values :: Get(row, k) != values[k]
  }

  function UpdateFrom(rows: seq<Row>, values: seq<Row>, i: nat, changed: bool): Result
    decreases |rows| - i
  {
    if i >= |rows| || i >= |values| then Result(rows, changed)
    else UpdateFrom(rows[i := rows[i] + values[i]], values, i + 1, changed || Differs(rows[i], values[i]))
  }

  function UpdateRows(rows: seq<Row>, values: seq<Row>): Result {
    UpdateFrom(rows, values, 0, false)
  }

  function ReplaceRows(rows: seq<Row>, replacement: seq<Row>): Result {
    var kept := Last(replacement, MAX_ROWS);
    if rows == kept then Result(rows, false) else Result(kept, true)
  }

  function RemoveRow(rows: seq<Row>, i: int): Result {
    if i < 0 || i >= |rows| then Result(rows, false) else Result(rows[..i] + rows[i + 1..], true)
  }

  function RemoveFrom(rows: seq<Row>, key: string, value: Value, n: nat, notified: bool): Result
    requires n <= |rows|
  {
    if n == 0 then Result(rows, notified)
    else if Get(rows[n - 1], key) == value then RemoveFrom(RemoveRow(rows, n - 1).rows, key, value, n - 1, true)
    else RemoveFrom(rows, key, value, n - 1, notified)
  }

  function RemoveRowsByValue(rows: seq<Row>, key: string, value: Value): Result {
    RemoveFrom(rows, key, value, |rows|, false)
  }

  /** Both ways to add rows: `front` is prependRows, otherwise the oldest rows make way. */
  function AddRows(rows: seq<Row>, added: seq<Row>, front: bool): Result {
    var kept := Last(added, MAX_ROWS);
    var overflow := if |rows| + |kept| > MAX_ROWS then |rows| + |kept| - MAX_ROWS else 0;
    if overflow >= |rows| && rows != [] then Result(kept, true)
    else if front then Result(kept + rows[..|rows| - overflow], true)
    else Result(rows[overflow..] + kept, true)
  }

  function PrependRows(rows: seq<Row>, added: seq<Row>): Result {
    if added == [] then Result(rows, false) else AddRows(rows, added, true)
  }

  /** Rows left to append after the de-duplication, beside the model's own rows. */
  datatype Pending = Pending(rows: seq<Row>, unseen: seq<Row>, places: map<string, nat>, notified: bool)

  predicate PlacesFit(p: Pending) {
    forall id :: id in p.places ==> p.places[id] < |p.unseen|
  }

  /** One row of the de-duplication loop in appendRows. */
  function DedupOne(p: Pending, row: Row): (q: Pending)
    requires PlacesFit(p)
    ensures PlacesFit(q)
  {
    var id := ToText(Get(row, "messageId"));
    if id == "" then p.(unseen := p.unseen + [row])
    else
      var existing := FindRow(p.rows, "messageId", Text(id));
      if existing >= 0 then
        var r := UpdateRow(p.rows, existing, row);
        p.(rows := r.rows, notified := p.notified || r.notified)
      else if id in p.places then p.(unseen := p.unseen[p.places[id] := p.unseen[p.places[id]] + row])
      else p.(places := p.places[id := |p.unseen|], unseen := p.unseen + [row])
  }

  function Dedup(p: Pending, added: seq<Row>): (q: Pending)
    requires PlacesFit(p)
    ensures PlacesFit(q)
    decreases |added|
  {
    if added == [] then p else Dedup(DedupOne(p, added[0]), added[1..])
  }

  function AppendRows(roles: Roles, rows: seq<Row>, added: seq<Row>): Result {
    if added == [] then Result(rows, false)
    else if "messageId" in roles then
      var p := Dedup(Pending(rows, [], map[], false), added);
      if p.unseen == [] then Result(p.rows, p.notified) else AddRows(p.rows, p.unseen, false)
    else AddRows(rows, added, false)
  }

  datatype Op =
    | AppendOp(added: seq<Row>)
    | PrependOp(added: seq<Row>)
    | ReplaceOp(replacement: seq<Row>)
    | UpdateOp(row: int, values: Row)
    | UpdateAllOp(valuesByRow: seq<Row>)
    | RemoveOp(row: int)
    | RemoveValueOp(key: string, value: Value)

  function Apply(roles: Roles, rows: seq<Row>, op: Op): Result {
    match op
    case AppendOp(added) => AppendRows(roles, rows, added)
    case PrependOp(added) => PrependRows(rows, added)
    case ReplaceOp(replacement) => ReplaceRows(rows, replacement)
    case UpdateOp(i, values) => UpdateRow(rows, i, values)
    case UpdateAllOp(values) => UpdateRows(rows, values)
    case RemoveOp(i) => RemoveRow(rows, i)
    case RemoveValueOp(key, value) => RemoveRowsByValue(rows, key, value)
  }

  // ---------- Every visible change notifies ----------

  ghost predicate SameViews(roles: Roles, rows: seq<Row>, rows': seq<Row>) {
    |rows'| == |rows| && forall i :: 0 <= i < |rows| ==> View(roles, rows'[i]) == View(roles, rows[i])
  }

  lemma SameViewsSameSnapshot(roles: Roles, rows: seq<Row>, rows': seq<Row>)
    requires SameViews(roles, rows, rows')
    ensures Serialize(roles, rows') == Serialize(roles, rows)
  {
    var (a, b) := (Last(rows, MAX_SERIALIZED), Last(rows', MAX_SERIALIZED));
    forall i | 0 <= i < |a| ensures View(roles, b[i]) == View(roles, a[i]) {
      var first := |rows| - |a|;
      assert a[i] == rows[first + i] && b[i] == rows'[first + i];
    }
  }

  lemma MergeWithoutDifference(roles: Roles, row: Row, values: Row)
    requires !Differs(row, values)
    ensures View(roles, row + values) == View(roles, row)
  {
    forall k | k in roles ensures Get(row + values, k) == Get(row, k) { }
  }

  lemma {:induction false} QuietUpdate(roles: Roles, rows: seq<Row>, values: seq<Row>, i: nat, changed: bool)
    ensures changed ==> UpdateFrom(rows, values, i, changed).notified
    ensures !UpdateFrom(rows, values, i, changed).notified ==>
              SameViews(roles, rows, UpdateFrom(rows, values, i, changed).rows)
    ensures |UpdateFrom(rows, values, i, changed).rows| == |rows|
    decreases |rows| - i
  {
    if i < |rows| && i < |values| {
      QuietUpdate(roles, rows[i := rows[i] + values[i]], values, i + 1, changed || Differs(rows[i], values[i]));
      if !Differs(rows[i], values[i]) { MergeWithoutDifference(roles, rows[i], values[i]); }
    }
  }

  lemma {:induction false} QuietRemove(rows: seq<Row>, key: string, value: Value, n: nat, notified: bool)
    requires n <= |rows|
    ensures var r := RemoveFrom(rows, key, value, n, notified);
      |r.rows| <= |rows| && (notified ==> r.notified) && (!r.notified ==> r.rows == rows)
  {
    if n > 0 {
      if Get(rows[n - 1], key) == value {
        QuietRemove(RemoveRow(rows, n - 1).rows, key, value, n - 1, true);
      } else {
        QuietRemove(rows, key, value, n - 1, notified);
      }
    }
  }

  lemma {:induction false} QuietDedup(p: Pending, added: seq<Row>)
    requires PlacesFit(p)
    ensures var q := Dedup(p, added);
      |q.rows| == |p.rows| && (p.notified ==> q.notified) && (!q.notified ==> q.rows == p.rows)
    decreases |added|
  {
    if added != [] { QuietDedup(DedupOne(p, added[0]), added[1..]); }
  }

  /** A change that does not notify cannot be seen in the serialization, and no operation
      leaves more than 1000 rows. */
  lemma VisibleChangeNotifies(roles: Roles, rows: seq<Row>, op: Op)
    requires |rows| <= MAX_ROWS
    ensures var r := Apply(roles, rows, op);
      && |r.rows| <= MAX_ROWS
      && (!r.notified ==> Serialize(roles, r.rows) == Serialize(roles, rows))
  {
    match op
    case AppendOp(added) => QuietDedup(Pending(rows, [], map[], false), added);
    case UpdateAllOp(values) =>
      QuietUpdate(roles, rows, values, 0, false);
      if !UpdateRows(rows, values).notified { SameViewsSameSnapshot(roles, rows, UpdateRows(rows, values).rows); }
    case RemoveValueOp(key, value) => QuietRemove(rows, key, value, |rows|, false);
    case _ =>
  }

  // ---------- Message ids stay unique ----------

  function Mid(row: Row): Value {
    Get(row, "messageId")
  }

  function Id(row: Row): string {
    ToText(Mid(row))
  }

  /** Message ids are texts; an empty one identifies nothing. */
  predicate HasId(row: Row) {
    Mid(row).Text? && Mid(row).text != ""
  }

  /** No two rows show the same message. */
  ghost predicate DistinctIds(rows: seq<Row>) {
    forall i, j :: 0 <= i < j < |rows| && HasId(rows[i]) ==> Mid(rows[i]) != Mid(rows[j])
  }

  /** `places` knows the ids of the unseen rows, and no row of the model has one of them. */
  ghost predicate Deduped(p: Pending) {
    && PlacesFit(p) && DistinctIds(p.rows)
    && (forall id :: id in p.places ==> id != "" && Id(p.unseen[p.places[id]]) == id)
    && (forall i :: 0 <= i < |p.unseen| && Id(p.unseen[i]) != "" ==>
          Id(p.unseen[i]) in p.places && p.places[Id(p.unseen[i])] == i)
    && (forall i, j :: 0 <= i < |p.rows| && 0 <= j < |p.unseen| && HasId(p.unseen[j]) ==>
          Mid(p.rows[i]) != Mid(p.unseen[j]))
  }

  /** Merging a row into one with the same id, in the model or among the unseen rows. */
  lemma MergeExisting(p: Pending, i: int, row: Row)
    requires Deduped(p) && 0 <= i < |p.rows| && HasId(p.rows[i]) && Id(p.rows[i] + row) == Id(p.rows[i])
    ensures Deduped(p.(rows := p.rows[i := p.rows[i] + row]))
    ensures Deduped(p.(rows := p.rows[i := p.rows[i] + row], notified := true))
  {
    var rows := p.rows[i := p.rows[i] + row];
    forall j | 0 <= j < |rows| && HasId(rows[j]) ensures Mid(rows[j]) == Mid(p.rows[j]) { }
  }

  lemma MergeUnseen(p: Pending, i: int, row: Row)
    requires Deduped(p) && 0 <= i < |p.unseen| && Id(p.unseen[i] + row) == Id(p.unseen[i])
    requires HasId(p.unseen[i] + row) ==> forall j :: 0 <= j < |p.rows| ==> Mid(p.rows[j]) != Mid(p.unseen[i] + row)
    ensures Deduped(p.(unseen := p.unseen[i := p.unseen[i] + row]))
  {
    var unseen := p.unseen[i := p.unseen[i] + row];
    forall j | 0 <= j < |unseen| ensures Id(unseen[j]) == Id(p.unseen[j]) { }
  }

  lemma AddUnseen(p: Pending, row: Row)
    requires Deduped(p) && Id(row) !in p.places
    requires HasId(row) ==> forall i :: 0 <= i < |p.rows| ==> Mid(p.rows[i]) != Mid(row)
    ensures Deduped(p.(unseen := p.unseen + [row],
                       places := if Id(row) == "" then p.places else p.places[Id(row) := |p.unseen|]))
  {
  }

  lemma DedupOneKeeps(p: Pending, row: Row)
    requires Deduped(p)
    ensures Deduped(DedupOne(p, row))
  {
    var id := Id(row);
    if id == "" {
      AddUnseen(p, row);
    } else {
      FirstMatch(p.rows, "messageId", Text(id), 0);
      var existing := FindRow(p.rows, "messageId", Text(id));
      if existing >= 0 {
        assert Mid(p.rows[existing] + row) == Mid(row);
        MergeExisting(p, existing, row);
      } else {
        forall i | 0 <= i < |p.rows| ensures Mid(p.rows[i]) != Text(id) { }
        assert HasId(row) ==> Mid(row) == Text(id);
        if id in p.places {
          assert Mid(p.unseen[p.places[id]] + row) == Mid(row);
          MergeUnseen(p, p.places[id], row);
        } else {
          AddUnseen(p, row);
        }
      }
    }
  }

  lemma {:induction false} DedupKeeps(p: Pending, added: seq<Row>)
    requires Deduped(p)
    ensures Deduped(Dedup(p, added))
    decreases |added|
  {
    if added != [] {
      DedupOneKeeps(p, added[0]);
      DedupKeeps(DedupOne(p, added[0]), added[1..]);
    }
  }

  lemma JoinedDistinct(p: Pending)
    requires Deduped(p)
    ensures DistinctIds(p.rows + p.unseen)
  {
    var all := p.rows + p.unseen;
    forall i, j | 0 <= i < j < |all| && HasId(all[i]) ensures Mid(all[i]) != Mid(all[j]) {
      if i < |p.rows| && j < |p.rows| {
        assert all[i] == p.rows[i] && all[j] == p.rows[j];
      } else if i < |p.rows| {
        assert all[i] == p.rows[i] && all[j] == p.unseen[j - |p.rows|];
      } else {
        assert all[i] == p.unseen[i - |p.rows|] && all[j] == p.unseen[j - |p.rows|];
      }
    }
  }

  lemma AppendIsSuffix(rows: seq<Row>, added: seq<Row>)
    ensures var r := AddRows(rows, added, false).rows; var all := rows + added;
      |r| <= |all| && r == all[|all| - |r|..]
  {
  }

  lemma SuffixDistinct(all: seq<Row>, n: nat)
    requires DistinctIds(all) && n <= |all|
    ensures DistinctIds(all[n..])
  {
  }

  /** However often messages are delivered, appending them shows each of them once. */
  lemma AppendKeepsIdsDistinct(roles: Roles, rows: seq<Row>, added: seq<Row>)
    requires "messageId" in roles && DistinctIds(rows)
    ensures DistinctIds(AppendRows(roles, rows, added).rows)
  {
    var start := Pending(rows, [], map[], false);
    DedupKeeps(start, added);
    var p := Dedup(start, added);
    JoinedDistinct(p);
    AppendIsSuffix(p.rows, p.unseen);
    var kept := AddRows(p.rows, p.unseen, false).rows;
    SuffixDistinct(p.rows + p.unseen, |p.rows + p.unseen| - |kept|);
  }

  /** A row that is appended twice is shown once exactly if its id is a text and not empty: a
      number is looked up as text, and the comparison of the two finds nothing. */
  lemma RepeatShownOnceExactly(roles: Roles, row: Row)
    requires "messageId" in roles
    ensures var once := AppendRows(roles, [], [row]).rows;
      && once == [row]
      && (|AppendRows(roles, once, [row]).rows| == 1 <==> HasId(row))
  {
    var added := [row];
    assert added[1..] == [];
    var empty := Pending([], [], map[], false);
    assert Dedup(empty, added) == DedupOne(empty, row);
    var p := Pending([row], [], map[], false);
    assert Dedup(p, added) == DedupOne(p, row);
    FirstMatch([row], "messageId", Text(Id(row)), 0);
  }

  // ---------- What each operation leaves ----------

  /** The serialization is the newest rows, at most 500, oldest first, each with exactly the
      roles of the model. */
  lemma SerializeExactly(roles: Roles, rows: seq<Row>, i: int)
    ensures var s := Serialize(roles, rows); var n := if |rows| < 500 then |rows| else 500;
      && |s| == n
      && (0 <= i < n ==>
            s[i].Keys == roles && forall k :: k in roles ==> s[i][k] == Get(rows[|rows| - n + i], k))
  {
    var newest := Last(rows, MAX_SERIALIZED);
    if 0 <= i < |newest| { assert newest[i] == rows[|rows| - |newest| + i]; }
  }

  /** Rows are prepended in front, in their order, and the newest of the model make way. */
  lemma PrependExactly(rows: seq<Row>, added: seq<Row>)
    requires |rows| <= 1000
    ensures var r := PrependRows(rows, added); var kept := Last(added, 1000);
      && (added == [] ==> r == Result(rows, false))
      && (added != [] ==>
            && r.notified && |r.rows| == (if |kept| + |rows| < 1000 then |kept| + |rows| else 1000)
            && r.rows == (kept + rows)[..|r.rows|])
  {
  }

  /** Rows without a message id, or with new and different ones, are appended behind, in their
      order, and the oldest rows make way. */
  lemma AppendFresh(rows: seq<Row>, added: seq<Row>)
    requires |rows| <= 1000
    ensures var r := AddRows(rows, added, false); var all := rows + added;
      && r.notified && r.rows == Last(all, 1000)
  {
  }

  /** Appending one row: it replaces the values of the row with its id if there is one, and is
      added behind otherwise; it always notifies. */
  lemma AppendOneExactly(roles: Roles, rows: seq<Row>, row: Row)
    requires "messageId" in roles && |rows| <= 1000
    ensures var r := AppendRows(roles, rows, [row]);
      && r.notified
      && (forall i :: 0 <= i < |rows| && Id(row) != "" && Mid(rows[i]) == Text(Id(row))
            && (forall j :: 0 <= j < i ==> Mid(rows[j]) != Text(Id(row)))
            ==> r.rows == rows[i := rows[i] + row])
      && ((Id(row) == "" || forall i :: 0 <= i < |rows| ==> Mid(rows[i]) != Text(Id(row))) ==>
            r.rows == Last(rows + [row], 1000))
  {
    var added := [row];
    assert added[1..] == [];
    var p := Pending(rows, [], map[], false);
    assert Dedup(p, added) == DedupOne(p, row);
    FirstMatch(rows, "messageId", Text(Id(row)), 0);
    if FindRow(rows, "messageId", Text(Id(row))) < 0 || Id(row) == "" { AppendFresh(rows, added); }
  }

  /** `base` with the values of the rows of that id, later ones over earlier ones. */
  ghost function Merged(base: Row, added: seq<Row>, id: string): Row
    decreases |added|
  {
    if added == [] then base
    else Merged(if Id(added[0]) == id then base + added[0] else base, added[1..], id)
  }

  ghost predicate Absent(rows: seq<Row>, id: string) {
    forall i :: 0 <= i < |rows| ==> Mid(rows[i]) != Text(id)
  }

  ghost predicate FirstAt(rows: seq<Row>, id: string, i: int) {
    0 <= i < |rows| && Mid(rows[i]) == Text(id) && forall j :: 0 <= j < i ==> Mid(rows[j]) != Text(id)
  }

  ghost predicate PlacesApart(p: Pending) {
    PlacesFit(p) && forall x, y :: x in p.places && y in p.places && x != y ==> p.places[x] != p.places[y]
  }

  /** What is collected so far for an id that no row of the model has. */
  ghost function Collected(p: Pending, id: string): Row
    requires PlacesFit(p)
  {
    if id in p.places then p.unseen[p.places[id]] else map[]
  }

  lemma CollectOne(p: Pending, row: Row, id: string)
    requires PlacesApart(p) && id != "" && Absent(p.rows, id)
    ensures var q := DedupOne(p, row);
      && PlacesApart(q) && Absent(q.rows, id) && (id in q.places <==> id in p.places || Id(row) == id)
      && Collected(q, id) == if Id(row) == id then Collected(p, id) + row else Collected(p, id)
  {
    FirstMatch(p.rows, "messageId", Text(Id(row)), 0);
    assert map[] + row == row;
  }

  lemma {:induction false} CollectAll(p: Pending, added: seq<Row>, id: string)
    requires PlacesApart(p) && id != "" && Absent(p.rows, id)
    ensures var q := Dedup(p, added);
      && (id in q.places <==> id in p.places || exists i :: 0 <= i < |added| && Id(added[i]) == id)
      && Collected(q, id) == Merged(Collected(p, id), added, id)
    decreases |added|
  {
    if added != [] {
      CollectOne(p, added[0], id);
      CollectAll(DedupOne(p, added[0]), added[1..], id);
    }
  }

  lemma MergeOne(p: Pending, row: Row, id: string, i: int)
    requires PlacesFit(p) && id != "" && FirstAt(p.rows, id, i) && (Id(row) == id ==> Mid(row) == Text(id))
    ensures var q := DedupOne(p, row);
      && FirstAt(q.rows, id, i) && q.rows[i] == if Id(row) == id then p.rows[i] + row else p.rows[i]
  {
    FirstMatch(p.rows, "messageId", Text(Id(row)), 0);
  }

  lemma {:induction false} MergeAll(p: Pending, added: seq<Row>, id: string, i: int)
    requires PlacesFit(p) && id != "" && FirstAt(p.rows, id, i)
    requires forall k :: 0 <= k < |added| && Id(added[k]) == id ==> Mid(added[k]) == Text(id)
    ensures i < |Dedup(p, added).rows| && Dedup(p, added).rows[i] == Merged(p.rows[i], added, id)
    decreases |added|
  {
    if added != [] {
      MergeOne(p, added[0], id, i);
      MergeAll(DedupOne(p, added[0]), added[1..], id, i);
    }
  }

  /** Appending a batch, for each id: if no row of the model has it, the rows that carry it become
      one new row with the values of all of them, later over earlier; if one has it and the batch
      writes it as a text, that row takes their values. The newest 1000 of all rows stay. */
  lemma BatchMerges(roles: Roles, rows: seq<Row>, added: seq<Row>, id: string)
    requires "messageId" in roles && |rows| <= 1000 && id != ""
    ensures var p := Dedup(Pending(rows, [], map[], false), added);
      && AppendRows(roles, rows, added).rows == Last(p.rows + p.unseen, 1000) && |p.rows| == |rows|
      && (Absent(rows, id) && (exists k :: 0 <= k < |added| && Id(added[k]) == id) ==>
            exists k :: 0 <= k < |p.unseen| && p.unseen[k] == Merged(map[], added, id))
      && (forall i :: FirstAt(rows, id, i)
                      && (forall k :: 0 <= k < |added| && Id(added[k]) == id ==> Mid(added[k]) == Text(id))
            ==> p.rows[i] == Merged(rows[i], added, id))
  {
    var start := Pending(rows, [], map[], false);
    var p := Dedup(start, added);
    DedupKeepsCount(start, added);
    AppendFresh(p.rows, p.unseen);
    if Absent(rows, id) { CollectAll(start, added, id); }
    forall i | FirstAt(rows, id, i) && forall k :: 0 <= k < |added| && Id(added[k]) == id ==> Mid(added[k]) == Text(id)
      ensures i < |p.rows| && p.rows[i] == Merged(rows[i], added, id)
    {
      MergeAll(start, added, id, i);
    }
    assert p.rows + [] == p.rows;
  }

  lemma {:induction false} DedupKeepsCount(p: Pending, added: seq<Row>)
    requires PlacesFit(p)
    ensures |Dedup(p, added).rows| == |p.rows|
    decreases |added|
  {
    if added != [] { DedupKeepsCount(DedupOne(p, added[0]), added[1..]); }
  }

  /** findRow gives the first row with the value. */
  lemma {:induction false} FirstMatch(rows: seq<Row>, key: string, value: Value, i: nat)
    requires i <= |rows|
    ensures var r := FindFrom(rows, key, value, i);
      && (r < 0 ==> r == -1 && forall j :: i <= j < |rows| ==> Get(rows[j], key) != value)
      && (r >= 0 ==> i <= r < |rows| && Get(rows[r], key) == value
                     && forall j :: i <= j < r ==> Get(rows[j], key) != value)
    decreases |rows| - i
  {
    if i < |rows| { FirstMatch(rows, key, value, i + 1); }
  }

  /** Updating all rows merges each with its values, and notifies exactly if some value differs. */
  lemma {:induction false} UpdateExactly(rows: seq<Row>, values: seq<Row>, i: nat, changed: bool)
    ensures var r := UpdateFrom(rows, values, i, changed);
      && |r.rows| == |rows|
      && (forall k :: 0 <= k < |rows| ==>
            r.rows[k] == if i <= k < |values| then rows[k] + values[k] else rows[k])
      && (r.notified <==> changed || exists k :: i <= k < |rows| && k < |values| && Differs(rows[k], values[k]))
    decreases |rows| - i
  {
    if i < |rows| && i < |values| {
      var rows' := rows[i := rows[i] + values[i]];
      UpdateExactly(rows', values, i + 1, changed || Differs(rows[i], values[i]));
      assert forall k :: i < k < |rows| ==> rows'[k] == rows[k];
    }
  }

  ghost function Keep(rows: seq<Row>, key: string, value: Value): seq<Row> {
    if rows == [] then []
    else Keep(rows[..|rows| - 1], key, value)
         + (if Get(rows[|rows| - 1], key) == value then [] else [rows[|rows| - 1]])
  }

  /** Removing by value leaves exactly the rows without the value, in their order, and notifies
      exactly if there was one. */
  lemma {:induction false} RemoveExactly(rows: seq<Row>, key: string, value: Value, n: nat, notified: bool)
    requires n <= |rows|
    ensures var r := RemoveFrom(rows, key, value, n, notified);
      && r.rows == Keep(rows[..n], key, value) + rows[n..]
      && (r.notified <==> notified || exists k :: 0 <= k < n && Get(rows[k], key) == value)
  {
    if n > 0 {
      assert rows[..n][..|rows[..n]| - 1] == rows[..n - 1] && rows[..n][n - 1] == rows[n - 1];
      if Get(rows[n - 1], key) == value {
        var rest := RemoveRow(rows, n - 1).rows;
        assert rest[..n - 1] == rows[..n - 1] && rest[n - 1..] == rows[n..];
        RemoveExactly(rest, key, value, n - 1, true);
      } else {
        RemoveExactly(rows, key, value, n - 1, notified);
        assert rows[n - 1..] == [rows[n - 1]] + rows[n..];
      }
    }
  }

  /** Replacing keeps the last 1000 of the new rows and notifies exactly if they differ. */
  lemma ReplaceExactly(rows: seq<Row>, replacement: seq<Row>)
    ensures ReplaceRows(rows, replacement).rows == Last(replacement, 1000)
    ensures ReplaceRows(rows, replacement).notified <==> rows != Last(replacement, 1000)
  {
  }

  // ---------- The object ----------

  class ChatListModel {
    const roles: Roles
    var rows: seq<Row>
    var notifications: nat

    constructor (roles: Roles)
      ensures this.roles == roles && rows == [] && notifications == 0
    {
      this.roles, rows, notifications := roles, [], 0;
    }

    twostate predicate Became(r: Result)
      reads this
    {
      rows == r.rows && (notifications > old(notifications) <==> r.notified) && notifications >= old(notifications)
    }

    method Notify()
      modifies this`notifications
      ensures notifications == old(notifications) + 1
    {
      notifications := notifications + 1;
    }

    method Find(key: string, value: Value) returns (row: int)
      ensures row == FindRow(rows, key, value)
    {
      row := 0;
      while row < |rows|
        invariant 0 <= row <= |rows| && FindFrom(rows, key, value, row) == FindRow(rows, key, value)
      {
        if Get(rows[row], key) == value { return; }
        row := row + 1;
      }
      return -1;
    }

    method Update(i: int, values: Row)
      modifies this
      ensures Became(UpdateRow(old(rows), i, values))
    {
      if i < 0 || i >= |rows| || values == map[] { return; }
      rows := rows[i := rows[i] + values];
      Notify();
    }

    /** One notification for all rows, and none when no value differs. */
    method UpdateAll(values: seq<Row>)
      modifies this
      ensures Became(UpdateRows(old(rows), values))
    {
      var changed := false;
      var i := 0;
      while i < |rows| && i < |values|
        invariant 0 <= i && notifications == old(notifications)
        invariant UpdateFrom(rows, values, i, changed) == UpdateRows(old(rows), values)
        decreases |values| - i
      {
        if exists k | k in values[i] :: Get(rows[i], k) != values[i][k] { changed := true; }
        rows := rows[i := rows[i] + values[i]];
        i := i + 1;
      }
      if changed { Notify(); }
    }

    method Replace(replacement: seq<Row>)
      modifies this
      ensures Became(ReplaceRows(old(rows), replacement))
    {
      var kept := replacement;
      if |kept| > MAX_ROWS { kept := kept[|kept| - MAX_ROWS..]; }
      if rows == kept { return; }
      rows := kept;
      Notify();
    }

    method Remove(i: int)
      modifies this
      ensures Became(RemoveRow(old(rows), i))
    {
      if i < 0 || i >= |rows| { return; }
      rows := rows[..i] + rows[i + 1..];
      Notify();
    }

    method RemoveByValue(key: string, value: Value)
      modifies this
      ensures Became(RemoveRowsByValue(old(rows), key, value))
    {
      var n := |rows|;
      ghost var notified := false;
      while n > 0
        invariant 0 <= n <= |rows|
        invariant notified <==> notifications > old(notifications)
        invariant notifications >= old(notifications)
        invariant RemoveFrom(rows, key, value, n, notified) == RemoveRowsByValue(old(rows), key, value)
      {
        if Get(rows[n - 1], key) == value {
          Remove(n - 1);
          notified := true;
        }
        n := n - 1;
      }
    }

    /** The trimming and inserting part of appendRows and prependRows. */
    method Add(added: seq<Row>, front: bool)
      modifies this
      ensures Became(AddRows(old(rows), added, front))
    {
      var kept := added;
      if |kept| > MAX_ROWS { kept := kept[|kept| - MAX_ROWS..]; }
      var overflow := |rows| + |kept| - MAX_ROWS;
      if overflow < 0 { overflow := 0; }
      if overflow >= |rows| && rows != [] {
        rows := kept;
        Notify();
        return;
      }
      if overflow > 0 {
        rows := if front then rows[..|rows| - overflow] else rows[overflow..];
        Notify();
      }
      rows := if front then kept + rows else rows + kept;
      Notify();
    }

    method Prepend(added: seq<Row>)
      modifies this
      ensures Became(PrependRows(old(rows), added))
    {
      if added == [] { return; }
      Add(added, true);
    }

    method Append(added: seq<Row>)
      modifies this
      ensures Became(AppendRows(roles, old(rows), added))
    {
      if added == [] { return; }
      if "messageId" !in roles {
        Add(added, false);
        return;
      }
      ghost var start := Pending(rows, [], map[], false);
      ghost var notified := false;
      var unseen: seq<Row> := [];
      var places: map<string, nat> := map[];
      for k := 0 to |added|
        invariant notified <==> notifications > old(notifications)
        invariant notifications >= old(notifications)
        invariant PlacesFit(Pending(rows, unseen, places, notified))
        invariant Dedup(Pending(rows, unseen, places, notified), added[k..]) == Dedup(start, added)
      {
        var row := added[k];
        assert added[k..][0] == row && added[k..][1..] == added[k + 1..];
        ghost var p := Pending(rows, unseen, places, notified);
        var id := ToText(Get(row, "messageId"));
        if id == "" {
          unseen := unseen + [row];
        } else {
          var existing := Find("messageId", Text(id));
          if existing >= 0 {
            Update(existing, row);
            notified := notified || UpdateRow(p.rows, existing, row).notified;
          } else if id in places {
            unseen := unseen[places[id] := unseen[places[id]] + row];
          } else {
            places := places[id := |unseen|];
            unseen := unseen + [row];
          }
        }
        assert Pending(rows, unseen, places, notified) == DedupOne(p, row);
      }
      if unseen == [] { return; }
      Add(unseen, false);
    }
  }
}
