/** The "recent key usage" list (`agent/src/agent_api.rs`): the ten newest rows of two tables are merged, sorted
    and cut to ten. Which of several rows with the same time a query returns is left open.
 */
module KeyUsage {
  import opened Common

  datatype Kind = OtkUsed | KeyVerified

  datatype Row = Row(kind: Kind, device: string, at: int)

  const LIMIT: nat := 10

  ghost predicate NewestFirst(rows: seq<Row>) {
    forall i, j :: 0 <= i <= j < |rows| ==> rows[i].at >= rows[j].at
  }

  /** The table has the row more often than the list. */
  ghost predicate LeftOut(table: multiset<Row>, list: seq<Row>, row: Row) {
    table[row] > multiset(list)[row]
  }

  /** `list` is what `ORDER BY at DESC LIMIT k` may return from `table`. */
  ghost predicate IsNewest(k: nat, table: multiset<Row>, list: seq<Row>) {
    && NewestFirst(list)
    && |list| == (if |table| < k then |table| else k)
    && multiset(list) <= table
    && (forall r, s :: r in list && LeftOut(table, list, s) ==> r.at >= s.at)
  }

  // ---------- The merge ----------

  function InsertRow(row: Row, rows: seq<Row>): (r: seq<Row>)
    ensures |r| == |rows| + 1
  {
    if rows == [] || row.at >= rows[0].at then [row] + rows else [rows[0]] + InsertRow(row, rows[1..])
  }

  /** The library's stable sort, newest first. */
  function SortByAt(rows: seq<Row>): (r: seq<Row>)
    ensures |r| == |rows|
  {
    if rows == [] then [] else InsertRow(rows[0], SortByAt(rows[1..]))
  }

  lemma {:induction false} InsertPermutes(row: Row, rows: seq<Row>)
    ensures multiset(InsertRow(row, rows)) == multiset(rows) + multiset{row}
  {
    if rows != [] && row.at < rows[0].at {
      InsertPermutes(row, rows[1..]);
      assert rows == [rows[0]] + rows[1..];
    }
  }

  lemma {:induction false} InsertOrders(row: Row, rows: seq<Row>)
    requires NewestFirst(rows)
    ensures NewestFirst(InsertRow(row, rows))
    ensures InsertRow(row, rows)[0] == if rows == [] || row.at >= rows[0].at then row else rows[0]
  {
    if rows != [] && row.at < rows[0].at {
      InsertOrders(row, rows[1..]);
    }
  }

  lemma {:induction false} SortSorts(rows: seq<Row>)
    ensures NewestFirst(SortByAt(rows)) && multiset(SortByAt(rows)) == multiset(rows)
  {
    if rows != [] {
      SortSorts(rows[1..]);
      InsertPermutes(rows[0], SortByAt(rows[1..]));
      InsertOrders(rows[0], SortByAt(rows[1..]));
      assert rows == [rows[0]] + rows[1..];
    }
  }

  // ---------- The query ----------

  datatype OtkRow = OtkRow(usedAt: Option<int>, consumedBy: Option<string>)

  datatype DeviceRow = DeviceRow(device: string, revokedAt: Option<int>, lastSeenAt: int)

  /** The one-time keys that a device consumed, not those that regeneration marked used. */
  function OtkUses(table: seq<OtkRow>): seq<Row> {
    if table == [] then []
    else
      (if table[0].usedAt.Some? && table[0].consumedBy.Some? then
         [Row(OtkUsed, table[0].consumedBy.value, table[0].usedAt.value)]
       else [])
      + OtkUses(table[1..])
  }

  /** The devices that are not revoked. */
  function KeyVerifications(table: seq<DeviceRow>): seq<Row> {
    if table == [] then []
    else
      (if table[0].revokedAt.None? then [Row(KeyVerified, table[0].device, table[0].lastSeenAt)] else [])
      + KeyVerifications(table[1..])
  }

  /** A one-time key is listed if and only if some device consumed it. */
  lemma {:induction false} OtkListed(table: seq<OtkRow>, row: Row)
    ensures row in OtkUses(table) <==>
      && row.kind.OtkUsed?
      && exists i :: 0 <= i < |table| && table[i].usedAt == Some(row.at) && table[i].consumedBy == Some(row.device)
  {
    if table != [] {
      OtkListed(table[1..], row);
      assert table == [table[0]] + table[1..];
    }
  }

  /** A device is listed if and only if it is not revoked. */
  lemma {:induction false} DeviceListed(table: seq<DeviceRow>, row: Row)
    ensures row in KeyVerifications(table) <==>
      && row.kind.KeyVerified?
      && exists i :: 0 <= i < |table| && table[i] == DeviceRow(row.device, None, row.at)
  {
    if table != [] {
      DeviceListed(table[1..], row);
      assert table == [table[0]] + table[1..];
    }
  }

  /** How many one-time keys the device consumed at that time. */
  function Consumed(table: seq<OtkRow>, device: string, at: int): nat {
    if table == [] then 0
    else (if table[0] == OtkRow(Some(at), Some(device)) then 1 else 0) + Consumed(table[1..], device, at)
  }

  function Entries(table: seq<DeviceRow>, entry: DeviceRow): nat {
    if table == [] then 0 else (if table[0] == entry then 1 else 0) + Entries(table[1..], entry)
  }

  /** Every consumed key is listed, once. */
  lemma {:induction false} OtkListedOnce(table: seq<OtkRow>, row: Row)
    ensures multiset(OtkUses(table))[row] == if row.kind.OtkUsed? then Consumed(table, row.device, row.at) else 0
  {
    if table != [] {
      OtkListedOnce(table[1..], row);
    }
  }

  /** Every device that is not revoked is listed, once. */
  lemma {:induction false} DeviceListedOnce(table: seq<DeviceRow>, row: Row)
    ensures multiset(KeyVerifications(table))[row]
      == if row.kind.KeyVerified? then Entries(table, DeviceRow(row.device, None, row.at)) else 0
  {
    if table != [] {
      DeviceListedOnce(table[1..], row);
    }
  }

  /** `ORDER BY at DESC LIMIT 10` over the rows that pass a query's filter, known by its result; a query that
      fails gives no rows. */
  method NewestRows(rows: seq<Row>, fails: bool) returns (list: seq<Row>)
    ensures IsNewest(LIMIT, if fails then multiset{} else multiset(rows), list)
  {
    hide SortByAt, IsNewest;
    if fails {
      NoRows();
      return [];
    }
    list := SortByAt(rows);
    SortSorts(rows);
    var n := if |list| > LIMIT then LIMIT else |list|;
    FrontIsNewest(LIMIT, list, n);
    list := list[..n];
  }

  lemma NoRows()
    ensures IsNewest(LIMIT, multiset{}, [])
  {
  }

  lemma FrontIsNewest(k: nat, sorted: seq<Row>, n: nat)
    requires NewestFirst(sorted) && n == if |sorted| > k then k else |sorted|
    ensures IsNewest(k, multiset(sorted), sorted[..n])
  {
    assert sorted == sorted[..n] + sorted[n..];
    assert multiset(sorted) == multiset(sorted[..n]) + multiset(sorted[n..]);
    forall r, s | r in sorted[..n] && LeftOut(multiset(sorted), sorted[..n], s) ensures r.at >= s.at {
      var i :| 0 <= i < n && sorted[..n][i] == r;
      AcrossCut(sorted, n, i, s);
    }
  }

  /** Whatever the two tables hold, the result is the newest ten rows of both together, as far as the two queries
      succeed. */
  method QueryRecentKeyUsage(otks: seq<OtkRow>, devices: seq<DeviceRow>, opens: bool, otkFails: bool, keyFails: bool)
    returns (merged: seq<Row>)
    ensures !opens ==> merged == []
    ensures opens ==> IsNewest(10,
      (if otkFails then multiset{} else multiset(OtkUses(otks)))
      + (if keyFails then multiset{} else multiset(KeyVerifications(devices))), merged)
  {
    hide IsNewest, OtkUses, KeyVerifications;
    if !opens {
      return [];
    }
    var otkRows := NewestRows(OtkUses(otks), otkFails);
    var keyRows := NewestRows(KeyVerifications(devices), keyFails);
    merged := MergeRows(otkRows, keyRows);
  }

  /** If the lists are the newest ten of each table then the result is the newest ten of both together. */
  method MergeRows(otkRows: seq<Row>, keyRows: seq<Row>) returns (merged: seq<Row>)
    ensures forall otks, keys :: IsNewest(LIMIT, otks, otkRows) && IsNewest(LIMIT, keys, keyRows) ==>
      IsNewest(LIMIT, otks + keys, merged)
  {
    merged := otkRows + keyRows;
    merged := SortByAt(merged);
    if |merged| > LIMIT {
      merged := merged[..LIMIT];
    }
    forall otks, keys | IsNewest(LIMIT, otks, otkRows) && IsNewest(LIMIT, keys, keyRows)
      ensures IsNewest(LIMIT, otks + keys, merged)
    {
      MergeNewest(LIMIT, otks, otkRows, keys, keyRows);
    }
  }

  // ---------- Limiting first loses nothing ----------

  lemma SizeOfPart(a: multiset<Row>, b: multiset<Row>)
    requires a <= b
    ensures |a| <= |b|
    ensures |a| == |b| ==> a == b
  {
    assert b == a + (b - a);
    assert |b| == |a| + |b - a|;
    if |a| == |b| {
      assert b - a == multiset{};
    }
  }

  /** If a newest-first list contains `k` rows no older than `t`, the first `k` rows are no older than `t`. */
  lemma TopHolds(rows: seq<Row>, part: seq<Row>, k: nat, t: int)
    requires NewestFirst(rows) && multiset(part) <= multiset(rows)
    requires 0 < k <= |part|
    requires forall r :: r in part ==> r.at >= t
    ensures k <= |rows| && rows[k - 1].at >= t
  {
    SizeOfPart(multiset(part), multiset(rows));
    if rows[k - 1].at < t {
      var newer, older := rows[..k - 1], rows[k - 1..];
      assert rows == newer + older;
      assert forall r :: r in older ==> r.at < t;
      forall r | r in multiset(part) ensures multiset(part)[r] <= multiset(newer)[r] {
        assert r in part;
        assert multiset(older)[r] == 0;
      }
      SizeOfPart(multiset(part), multiset(newer));
      assert false;
    }
  }

  /** A row that one table's limited list leaves out is no newer than any row of the merged and limited list. */
  lemma LeftOutIsOlder(k: nat, table: multiset<Row>, part: seq<Row>, rows: seq<Row>, s: Row)
    requires IsNewest(k, table, part) && k > 0
    requires NewestFirst(rows) && multiset(part) <= multiset(rows)
    requires LeftOut(table, part, s)
    ensures |rows| >= k && forall i :: 0 <= i < k ==> rows[i].at >= s.at
  {
    if |part| == |table| {
      SizeOfPart(multiset(part), table);
    }
    TopHolds(rows, part, k, s.at);
  }

  lemma {:induction false} MergeNewest(k: nat, a: multiset<Row>, la: seq<Row>, b: multiset<Row>, lb: seq<Row>)
    requires IsNewest(k, a, la) && IsNewest(k, b, lb)
    ensures var sorted := SortByAt(la + lb);
      IsNewest(k, a + b, if |sorted| > k then sorted[..k] else sorted)
  {
    hide SortByAt, IsNewest, NewestFirst;
    var sorted := SortByAt(la + lb);
    SortSorts(la + lb);
    assert multiset(sorted) == multiset(la) + multiset(lb);
    var n := if |sorted| > k then k else |sorted|;
    assert sorted[..|sorted|] == sorted;
    CutIsNewest(k, a, la, b, lb, sorted, n);
  }

  lemma CutIsNewest(k: nat, a: multiset<Row>, la: seq<Row>, b: multiset<Row>, lb: seq<Row>, sorted: seq<Row>, n: nat)
    requires IsNewest(k, a, la) && IsNewest(k, b, lb)
    requires NewestFirst(sorted) && multiset(sorted) == multiset(la) + multiset(lb)
    requires |sorted| == |la| + |lb| && n == if |sorted| > k then k else |sorted|
    ensures IsNewest(k, a + b, sorted[..n])
  {
    CutIsPart(a, la, b, lb, sorted, n);
    assert NewestFirst(sorted[..n]);
    assert |a + b| == |a| + |b|;
    forall r, s | r in sorted[..n] && LeftOut(a + b, sorted[..n], s) ensures r.at >= s.at {
      MergedOrder(k, a, la, b, lb, sorted, n, r, s);
    }
  }

  lemma CutIsPart(a: multiset<Row>, la: seq<Row>, b: multiset<Row>, lb: seq<Row>, sorted: seq<Row>, n: nat)
    requires multiset(la) <= a && multiset(lb) <= b
    requires multiset(sorted) == multiset(la) + multiset(lb) && n <= |sorted|
    ensures multiset(sorted[..n]) <= a + b
  {
    var front, back := multiset(sorted[..n]), multiset(sorted[n..]);
    assert sorted == sorted[..n] + sorted[n..];
    assert multiset(sorted) == front + back;
    forall r | r in front ensures front[r] <= (a + b)[r] {
      assert multiset(sorted)[r] == front[r] + back[r];
      assert multiset(sorted)[r] == multiset(la)[r] + multiset(lb)[r];
    }
  }

  lemma MergedOrder(k: nat, a: multiset<Row>, la: seq<Row>, b: multiset<Row>, lb: seq<Row>,
                    sorted: seq<Row>, n: nat, r: Row, s: Row)
    requires IsNewest(k, a, la) && IsNewest(k, b, lb)
    requires NewestFirst(sorted) && multiset(sorted) == multiset(la) + multiset(lb)
    requires n <= |sorted| && n <= k
    requires r in sorted[..n] && LeftOut(a + b, sorted[..n], s)
    ensures r.at >= s.at
  {
    hide IsNewest, NewestFirst, LeftOut;
    var i :| 0 <= i < n && sorted[..n][i] == r;
    assert sorted[i] == r;
    LeftOutOfBoth(a, la, b, lb, sorted, n, s);
    if LeftOut(a, la, s) {
      LeftOutIsOlder(k, a, la, sorted, s);
    } else if LeftOut(b, lb, s) {
      LeftOutIsOlder(k, b, lb, sorted, s);
    } else {
      AcrossCut(sorted, n, i, s);
    }
  }

  lemma LeftOutOfBoth(a: multiset<Row>, la: seq<Row>, b: multiset<Row>, lb: seq<Row>, sorted: seq<Row>, n: nat, s: Row)
    requires multiset(sorted) == multiset(la) + multiset(lb)
    requires n <= |sorted| && LeftOut(a + b, sorted[..n], s)
    ensures LeftOut(a, la, s) || LeftOut(b, lb, s) || s in sorted[n..]
  {
    assert sorted == sorted[..n] + sorted[n..];
    assert multiset(sorted)[s] == multiset(sorted[..n])[s] + multiset(sorted[n..])[s];
  }

  lemma AcrossCut(sorted: seq<Row>, n: nat, i: nat, s: Row)
    requires NewestFirst(sorted) && i < n <= |sorted| && s in sorted[n..]
    ensures sorted[i].at >= s.at
  {
  }

  /** However ties are broken, the times on the list are the same: the limited queries merged and the unlimited
      query over both tables show the same ten times. */
  lemma TimesAgree(k: nat, table: multiset<Row>, l1: seq<Row>, l2: seq<Row>, i: nat)
    requires IsNewest(k, table, l1) && IsNewest(k, table, l2)
    ensures |l1| == |l2|
    ensures i < |l1| ==> l1[i].at == l2[i].at
  {
    if i < |l1| {
      NotNewer(k, table, l1, l2, i);
      NotNewer(k, table, l2, l1, i);
    }
  }

  lemma NotNewer(k: nat, table: multiset<Row>, l1: seq<Row>, l2: seq<Row>, i: nat)
    requires IsNewest(k, table, l1) && IsNewest(k, table, l2) && i < |l1|
    ensures l1[i].at <= l2[i].at
  {
    if l1[i].at > l2[i].at {
      var top := l1[..i + 1];
      assert l1 == top + l1[i + 1..];
      assert forall s :: s in top ==> s.at >= l1[i].at;
      assert multiset(l1) <= table && NewestFirst(l2);
      forall s | s in multiset(top) ensures multiset(top)[s] <= multiset(l2)[s] {
        assert s in top;
        NotLeftOut(k, table, l2, i, s);
        assert multiset(top)[s] <= multiset(l1)[s] <= table[s];
      }
      TopHolds(l2, top, i + 1, l1[i].at);
      assert false;
    }
  }

  lemma NotLeftOut(k: nat, table: multiset<Row>, list: seq<Row>, i: nat, s: Row)
    requires IsNewest(k, table, list) && i < |list| && s.at > list[i].at
    ensures !LeftOut(table, list, s)
  {
    assert list[i] in list;
  }
}
