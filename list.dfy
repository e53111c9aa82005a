/** The attendance list (components/List.tsx): the registrations fetched from the backend,
    narrowed by a case-insensitive search over name and registration number and shown with
    the present rows first, each group by name; a switch per row flips its `attendance` on
    the backend and then locally, and the list is fetched again afterwards. */
module AttendanceList {
  import opened Wrappers
  import opened Strings
  import opened Backend

  // ---------------------------------------------------------------------------
  // The search
  // ---------------------------------------------------------------------------

  /** A row survives the search when the lower-cased query occurs in its lower-cased name or
      in its lower-cased registration number. */
  predicate Matches(row: Registration, query: string): (b: bool)
    ensures b <==> ((exists k :: OccursAt(Lower(query), Lower(row.name), k))
                    || (exists k :: OccursAt(Lower(query), Lower(row.regNo), k)))
    ensures query == "" ==> b
  {
    Includes(Lower(row.name), Lower(query)) || Includes(Lower(row.regNo), Lower(query))
  }

  /** The search ignores the case of the query: typing it in capitals finds the same rows. */
  lemma MatchesIgnoresCase(row: Registration, query: string)
    ensures Matches(row, Upper(query)) == Matches(row, query)
  {
    LowerUpper(query);
  }

  /** `data.filter(...)`: each row is kept exactly when it matches, as often as it occurs. */
  function FilterRows(rows: seq<Registration>, query: string): (r: seq<Registration>)
    ensures forall x :: multiset(r)[x] == if Matches(x, query) then multiset(rows)[x] else 0
    ensures forall i :: 0 <= i < |r| ==> Matches(r[i], query)
  {
    if rows == [] then []
    else
      var rest := FilterRows(rows[1..], query);
      assert rows == [rows[0]] + rows[1..];
      assert multiset(rows) == multiset{rows[0]} + multiset(rows[1..]);
      if Matches(rows[0], query) then
        assert multiset([rows[0]] + rest) == multiset{rows[0]} + multiset(rest);
        [rows[0]] + rest
      else rest
  }

  /** The empty query keeps every row, in order. */
  lemma {:induction false} FilterEmptyQuery(rows: seq<Registration>)
    ensures FilterRows(rows, "") == rows
  {
    if rows != [] {
      assert Lower("") == "";
      assert Matches(rows[0], "");
      FilterEmptyQuery(rows[1..]);
    }
  }

  // ---------------------------------------------------------------------------
  // The sort
  // ---------------------------------------------------------------------------

  /** The order names are compared in: code-point lexicographic order, standing in for
      `localeCompare`. */
  predicate NameLe(a: string, b: string): (r: bool)
    ensures a <= b ==> r
    ensures b < a ==> !r
  {
    a == [] || (b != [] && (a[0] < b[0] || (a[0] == b[0] && NameLe(a[1..], b[1..]))))
  }

  lemma {:induction false} NameLeTotal(a: string, b: string)
    ensures NameLe(a, b) || NameLe(b, a)
  {
    if a != [] && b != [] && a[0] == b[0] {
      NameLeTotal(a[1..], b[1..]);
    }
  }

  lemma {:induction false} NameLeTransitive(a: string, b: string, c: string)
    requires NameLe(a, b) && NameLe(b, c)
    ensures NameLe(a, c)
  {
    if a != [] && b != [] && c != [] && a[0] == b[0] == c[0] {
      NameLeTransitive(a[1..], b[1..], c[1..]);
    }
  }

  /** The comparator of the sort, as "may come first": present rows before absent ones,
      rows with equal attendance by name. */
  predicate RowLe(a: Registration, b: Registration): (r: bool)
    ensures a.attendance && !b.attendance ==> r
    ensures !a.attendance && b.attendance ==> !r
    ensures a.attendance == b.attendance ==> (r <==> NameLe(a.name, b.name))
  {
    if a.attendance == b.attendance then NameLe(a.name, b.name) else a.attendance
  }

  lemma RowLeTotal(a: Registration, b: Registration)
    ensures RowLe(a, b) || RowLe(b, a)
  {
    NameLeTotal(a.name, b.name);
  }

  lemma RowLeTransitive(a: Registration, b: Registration, c: Registration)
    requires RowLe(a, b) && RowLe(b, c)
    ensures RowLe(a, c)
  {
    if a.attendance == b.attendance == c.attendance {
      NameLeTransitive(a.name, b.name, c.name);
    }
  }

  predicate Sorted(s: seq<Registration>) {
    forall i, j :: 0 <= i < j < |s| ==> RowLe(s[i], s[j])
  }

  /** `x` placed before the first row it may precede. */
  function Insert(x: Registration, s: seq<Registration>): (r: seq<Registration>)
    ensures multiset(r) == multiset(s) + multiset{x}
  {
    if s == [] || RowLe(x, s[0]) then [x] + s
    else
      assert s == [s[0]] + s[1..];
      [s[0]] + Insert(x, s[1..])
  }

  lemma {:induction false} InsertSorted(x: Registration, s: seq<Registration>)
    requires Sorted(s)
    ensures Sorted(Insert(x, s))
  {
    var r := Insert(x, s);
    if s == [] {
    } else if RowLe(x, s[0]) {
      forall j | 1 <= j < |r|
        ensures RowLe(r[0], r[j])
      {
        if j > 1 {
          RowLeTransitive(x, s[0], s[j - 1]);
        }
      }
    } else {
      RowLeTotal(x, s[0]);
      var rest := Insert(x, s[1..]);
      InsertSorted(x, s[1..]);
      forall j | 0 <= j < |rest|
        ensures RowLe(s[0], rest[j])
      {
        assert rest[j] in multiset(rest);
        assert rest[j] == x || rest[j] in multiset(s[1..]);
        if rest[j] != x {
          var k :| 0 <= k < |s[1..]| && s[1..][k] == rest[j];
          assert s[k + 1] == rest[j];
        }
      }
    }
  }

  /** The sort: every row inserted in turn. */
  function SortRows(s: seq<Registration>): (r: seq<Registration>)
    ensures multiset(r) == multiset(s)
  {
    if s == [] then []
    else
      assert s == [s[0]] + s[1..];
      Insert(s[0], SortRows(s[1..]))
  }

  lemma {:induction false} SortRowsSorted(s: seq<Registration>)
    ensures Sorted(SortRows(s))
  {
    if s != [] {
      SortRowsSorted(s[1..]);
      InsertSorted(s[0], SortRows(s[1..]));
    }
  }

  /** `filteredAndSortedData`: the matching rows of `data`, each as often as in `data` and
      no other row, with every present row before every absent one and each group in name
      order. */
  function View(data: seq<Registration>, query: string): (v: seq<Registration>)
    ensures forall x :: multiset(v)[x] == if Matches(x, query) then multiset(data)[x] else 0
    ensures forall i, j :: 0 <= i < j < |v| ==> v[i].attendance || !v[j].attendance
    ensures forall i, j :: 0 <= i < j < |v| && v[i].attendance == v[j].attendance ==> NameLe(v[i].name, v[j].name)
  {
    var v := SortRows(FilterRows(data, query));
    SortRowsSorted(FilterRows(data, query));
    v
  }

  // ---------------------------------------------------------------------------
  // The toggle
  // ---------------------------------------------------------------------------

  /** Row `i` is the first with that qrID. */
  predicate FirstWithQr(data: seq<Registration>, qrID: string, i: int) {
    0 <= i < |data| && data[i].qrID == qrID && forall j :: 0 <= j < i ==> data[j].qrID != qrID
  }

  /** `data.find(item => item.qrID === qrID)` */
  function Find(data: seq<Registration>, qrID: string): (r: Option<Registration>)
    ensures r.None? <==> forall i :: 0 <= i < |data| ==> data[i].qrID != qrID
    ensures r.Some? ==> exists i :: FirstWithQr(data, qrID, i) && data[i] == r.value
  {
    if data == [] then None
    else if data[0].qrID == qrID then
      assert FirstWithQr(data, qrID, 0);
      Some(data[0])
    else
      var r := Find(data[1..], qrID);
      if r.Some? then
        var i :| FirstWithQr(data[1..], qrID, i) && data[1..][i] == r.value;
        assert FirstWithQr(data, qrID, i + 1);
        r
      else r
  }

  /** The local update after a successful write: the rows with that qrID take `value` for
      their attendance; no other row, and no other field, changes. */
  function SetAttendance(data: seq<Registration>, qrID: string, value: bool): (r: seq<Registration>)
    ensures |r| == |data|
    ensures forall i :: 0 <= i < |data| ==> r[i].(attendance := data[i].attendance) == data[i]
    ensures forall i :: 0 <= i < |data| ==> r[i].attendance == if data[i].qrID == qrID then value else data[i].attendance
  {
    seq(|data|, i requires 0 <= i < |data| =>
      if data[i].qrID == qrID then data[i].(attendance := value) else data[i])
  }

  /** Flipping a registration and flipping it back restores the list, when the rows with
      that qrID agree on their attendance (as they do when qrIDs are unique). */
  lemma ToggleTwice(data: seq<Registration>, qrID: string, value: bool)
    requires forall i :: 0 <= i < |data| && data[i].qrID == qrID ==> data[i].attendance == value
    ensures SetAttendance(SetAttendance(data, qrID, !value), qrID, value) == data
  {
    var r := SetAttendance(SetAttendance(data, qrID, !value), qrID, value);
    forall i | 0 <= i < |data|
      ensures r[i] == data[i]
    {
    }
  }

  class AttendanceList {
    var isLoading: bool
    var data: seq<Registration>
    var searchQuery: string

    constructor ()
      ensures !isLoading && data == [] && searchQuery == ""
    {
      isLoading, data, searchQuery := false, [], "";
    }

    /** `fetchData`: the rows replace `data` when the read succeeds; an error leaves it. */
    method FetchData(backend: Table, answer: FetchReply)
      modifies this`isLoading, this`data, backend`requests
      ensures data == if answer.Rows? then answer.rows else old(data)
      ensures !isLoading && searchQuery == old(searchQuery)
      ensures backend.rows == old(backend.rows) && backend.requests == old(backend.requests) + [SelectAll]
    {
      isLoading := true;
      var reply := backend.SelectEvery(answer);
      if reply.Rows? {
        data := reply.rows;
      }
      isLoading := false;
    }

    /** `toggleAttendance(qrID)`: an unknown qrID does nothing at all. Otherwise the new value
        is the negation of the first matching row's; it is written to the backend (meeting
        `fault`, if any), set locally on every row with that qrID only if the write went
        through, and the list is fetched again in every case (the read answering `answer`). */
    method ToggleAttendance(backend: Table, qrID: string, fault: Option<ApiError>, answer: FetchReply)
      modifies this`isLoading, this`data, backend
      ensures searchQuery == old(searchQuery)
      ensures Find(old(data), qrID).None? ==>
                data == old(data) && isLoading == old(isLoading)
                && backend.rows == old(backend.rows) && backend.requests == old(backend.requests)
      ensures Find(old(data), qrID).Some? ==>
                var value := !Find(old(data), qrID).value.attendance;
                var local := if fault.None? then SetAttendance(old(data), qrID, value) else old(data);
                && !isLoading
                && backend.rows == Written(old(backend.rows), qrID, value, fault)
                && backend.requests == old(backend.requests) + [UpdateAttendance(qrID, value), SelectAll]
                && data == if answer.Rows? then answer.rows else local
    {
      var item := Find(data, qrID);
      if item.None? {
        return;
      }
      var value := !item.value.attendance;
      isLoading := true;
      var error := backend.Update(qrID, value, fault);
      if error.None? {
        data := SetAttendance(data, qrID, value);
      }
      isLoading := false;
      FetchData(backend, answer);
    }
  }
}
