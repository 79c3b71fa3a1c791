/**
 * The budgets table: rows (user_id, category, monthly_limit, month, year) in
 * table order, unique on (user_id, category, month, year). Writing a budget
 * is an upsert (`INSERT ... ON CONFLICT(...) DO UPDATE SET monthly_limit`),
 * and a conflicting row is updated where it stands.
 */
module Budgets {
  import opened Optional

  datatype BudgetKey = BudgetKey(userId: int, category: string, month: int, year: int)

  /** A budget row; the limit is in cents. */
  datatype Budget = Budget(userId: int, category: string, monthlyLimit: int, month: int, year: int)
  {
    function Key(): BudgetKey {
      BudgetKey(userId, category, month, year)
    }
  }

  /** The table's UNIQUE(user_id, category, month, year) constraint. */
  predicate KeysUnique(rows: seq<Budget>) {
    forall i, j :: 0 <= i < j < |rows| ==> rows[i].Key() != rows[j].Key()
  }

  /** Position of the first row with key k, in table order. */
  function KeyIndex(rows: seq<Budget>, k: BudgetKey): (r: Option<nat>)
    ensures r.Some? ==>
              r.value < |rows| && rows[r.value].Key() == k &&
              forall j :: 0 <= j < r.value ==> rows[j].Key() != k
    ensures r.None? ==> forall j :: 0 <= j < |rows| ==> rows[j].Key() != k
    decreases |rows|
  {
    if rows == [] then None
    else if rows[0].Key() == k then Some(0)
    else match KeyIndex(rows[1..], k)
      case None => None
      case Some(i) => Some(i + 1)
  }

  /** The upsert of one row: overwrite the limit of the row with b's key, or append b. */
  function Upsert(rows: seq<Budget>, b: Budget): (r: seq<Budget>)
    ensures b in r
    ensures |rows| <= |r| <= |rows| + 1
    ensures |r| == |rows| + 1 <==> forall j :: 0 <= j < |rows| ==> rows[j].Key() != b.Key()
    ensures forall j :: 0 <= j < |rows| && rows[j].Key() != b.Key() ==> r[j] == rows[j]
  {
    match KeyIndex(rows, b.Key())
    case Some(i) =>
      var updated := rows[i].(monthlyLimit := b.monthlyLimit);
      assert updated == b && rows[i := updated][i] == b;
      rows[i := updated]
    case None => rows + [b]
  }

  /** The rows whose key is k, in table order. */
  function WithKey(rows: seq<Budget>, k: BudgetKey): seq<Budget>
    decreases |rows|
  {
    if rows == [] then []
    else (if rows[0].Key() == k then [rows[0]] else []) + WithKey(rows[1..], k)
  }

  /** The rows whose key is not k, in table order. */
  function OtherKeys(rows: seq<Budget>, k: BudgetKey): seq<Budget>
    decreases |rows|
  {
    if rows == [] then []
    else (if rows[0].Key() != k then [rows[0]] else []) + OtherKeys(rows[1..], k)
  }

  lemma {:induction false} OtherKeysAppend(rows: seq<Budget>, b: Budget, k: BudgetKey)
    ensures OtherKeys(rows + [b], k) == OtherKeys(rows, k) + (if b.Key() != k then [b] else [])
    decreases |rows|
  {
    if rows == [] {
      assert OtherKeys([b], k) == (if b.Key() != k then [b] else []) + OtherKeys([], k);
    } else {
      assert (rows + [b])[0] == rows[0] && (rows + [b])[1..] == rows[1..] + [b];
      OtherKeysAppend(rows[1..], b, k);
    }
  }

  lemma {:induction false} WithKeyNone(rows: seq<Budget>, k: BudgetKey)
    requires forall j :: 0 <= j < |rows| ==> rows[j].Key() != k
    ensures WithKey(rows, k) == []
    decreases |rows|
  {
    if rows != [] {
      WithKeyNone(rows[1..], k);
    }
  }

  /** Replacing a row by one of the same key changes nothing among the other keys. */
  lemma {:induction false} OtherKeysUpdate(rows: seq<Budget>, i: nat, x: Budget)
    requires i < |rows| && rows[i].Key() == x.Key()
    ensures OtherKeys(rows[i := x], x.Key()) == OtherKeys(rows, x.Key())
    decreases |rows|
  {
    if i > 0 {
      assert rows[i := x][0] == rows[0] && rows[i := x][1..] == rows[1..][i - 1 := x];
      OtherKeysUpdate(rows[1..], i - 1, x);
    } else {
      assert rows[i := x][1..] == rows[1..];
    }
  }

  /** Under key uniqueness the only row with a row's key is that row. */
  lemma {:induction false} WithKeyUnique(rows: seq<Budget>, i: nat)
    requires KeysUnique(rows) && i < |rows|
    ensures WithKey(rows, rows[i].Key()) == [rows[i]]
    decreases |rows|
  {
    var k := rows[i].Key();
    assert KeysUnique(rows[1..]) by {
      forall a, b | 0 <= a < b < |rows[1..]| ensures rows[1..][a].Key() != rows[1..][b].Key() {
        assert rows[1..][a] == rows[a + 1] && rows[1..][b] == rows[b + 1];
      }
    }
    if i == 0 {
      forall j | 0 <= j < |rows[1..]| ensures rows[1..][j].Key() != k {
        assert rows[1..][j] == rows[j + 1];
      }
      WithKeyNone(rows[1..], k);
    } else {
      assert rows[1..][i - 1] == rows[i];
      WithKeyUnique(rows[1..], i - 1);
    }
  }

  /** Upsert keeps the table's key uniqueness. */
  lemma UpsertKeepsKeysUnique(rows: seq<Budget>, b: Budget)
    requires KeysUnique(rows)
    ensures KeysUnique(Upsert(rows, b))
  {
    var r := Upsert(rows, b);
    match KeyIndex(rows, b.Key())
    case Some(i) =>
      assert r == rows[i := b];
      forall p, q | 0 <= p < q < |r| ensures r[p].Key() != r[q].Key() {
        if p != i && q != i {
          assert r[p] == rows[p] && r[q] == rows[q];
        }
      }
    case None =>
      assert r == rows + [b];
  }

  /**
   * After an upsert, exactly one row carries b's key and it holds b's limit;
   * the rows of every other key are those of before, in the same order.
   */
  lemma UpsertStoresRow(rows: seq<Budget>, b: Budget)
    requires KeysUnique(rows)
    ensures KeysUnique(Upsert(rows, b))
    ensures WithKey(Upsert(rows, b), b.Key()) == [b]
    ensures OtherKeys(Upsert(rows, b), b.Key()) == OtherKeys(rows, b.Key())
  {
    UpsertKeepsKeysUnique(rows, b);
    var r := Upsert(rows, b);
    match KeyIndex(rows, b.Key())
    case Some(i) =>
      assert r == rows[i := b];
      WithKeyUnique(r, i);
      OtherKeysUpdate(rows, i, b);
    case None =>
      assert r == rows + [b];
      WithKeyUnique(r, |rows|);
      OtherKeysAppend(rows, b, b.Key());
  }

  /** After an upsert the first row with b's key is found where Upsert put b. */
  lemma UpsertIndex(rows: seq<Budget>, b: Budget)
    ensures KeyIndex(Upsert(rows, b), b.Key()).Some?
    ensures Upsert(rows, b)[KeyIndex(Upsert(rows, b), b.Key()).value] == b
    ensures KeyIndex(rows, b.Key()).Some? ==>
              KeyIndex(Upsert(rows, b), b.Key()) == KeyIndex(rows, b.Key())
  {
    var r := Upsert(rows, b);
    var i := match KeyIndex(rows, b.Key()) case Some(i) => i case None => |rows|;
    assert r[i] == b;
    forall j | 0 <= j < i ensures r[j].Key() != b.Key() {
      assert r[j] == rows[j];
    }
    assert r[i].Key() == b.Key();
    var found := KeyIndex(r, b.Key());
    assert found.Some?;
    assert !(found.value < i) && !(i < found.value);
  }

  /** Writing the same budget twice leaves the table as writing it once. */
  lemma UpsertIdempotent(rows: seq<Budget>, b: Budget)
    ensures Upsert(Upsert(rows, b), b) == Upsert(rows, b)
  {
    UpsertIndex(rows, b);
    var r := Upsert(rows, b);
    var i := KeyIndex(r, b.Key()).value;
    assert Upsert(r, b) == r[i := r[i].(monthlyLimit := b.monthlyLimit)];
  }

  /** Re-setting a key with a new limit leaves the table as setting only the new limit. */
  lemma UpsertOverwrites(rows: seq<Budget>, b1: Budget, b2: Budget)
    requires b1.Key() == b2.Key()
    ensures Upsert(Upsert(rows, b1), b2) == Upsert(rows, b2)
  {
    UpsertIndex(rows, b1);
    var r := Upsert(rows, b1);
    var i := KeyIndex(r, b2.Key()).value;
    match KeyIndex(rows, b2.Key())
    case Some(i0) =>
      assert i == i0;
      assert Upsert(r, b2) == rows[i := b2];
    case None =>
      assert r == rows + [b1];
      assert i == |rows|;
      assert Upsert(r, b2) == rows + [b2];
  }

  /** `view_budgets`: (category, monthly_limit) of the user's rows, in table order. */
  function ViewBudgets(rows: seq<Budget>, u: int): (r: seq<(string, int)>)
    ensures |r| <= |rows|
    ensures (forall j :: 0 <= j < |rows| ==> rows[j].userId != u) ==> r == []
    ensures (forall j :: 0 <= j < |rows| ==> rows[j].userId == u) ==>
              |r| == |rows| && forall j :: 0 <= j < |rows| ==> r[j] == (rows[j].category, rows[j].monthlyLimit)
    decreases |rows|
  {
    if rows == [] then []
    else (if rows[0].userId == u then [(rows[0].category, rows[0].monthlyLimit)] else [])
         + ViewBudgets(rows[1..], u)
  }

  /**
   * One more row adds one entry at the end of its user's listing and none to
   * any other user's: the listing has one entry per row of the user.
   */
  lemma {:induction false} ViewBudgetsAppend(rows: seq<Budget>, b: Budget, u: int)
    ensures ViewBudgets(rows + [b], u) ==
            ViewBudgets(rows, u) + (if b.userId == u then [(b.category, b.monthlyLimit)] else [])
    decreases |rows|
  {
    if rows == [] {
      assert ViewBudgets([b], u) ==
             (if b.userId == u then [(b.category, b.monthlyLimit)] else []) + ViewBudgets([], u);
    } else {
      assert (rows + [b])[0] == rows[0] && (rows + [b])[1..] == rows[1..] + [b];
      ViewBudgetsAppend(rows[1..], b, u);
    }
  }

  /** A pair is listed exactly when some row of the user carries it. */
  lemma {:induction false} ViewBudgetsMembers(rows: seq<Budget>, u: int, c: string, l: int)
    ensures (c, l) in ViewBudgets(rows, u) <==>
            exists i :: 0 <= i < |rows| && rows[i].userId == u &&
                        rows[i].category == c && rows[i].monthlyLimit == l
    decreases |rows|
  {
    if rows != [] {
      ViewBudgetsMembers(rows[1..], u, c, l);
      if (c, l) in ViewBudgets(rows[1..], u) {
        var i :| 0 <= i < |rows[1..]| && rows[1..][i].userId == u &&
                 rows[1..][i].category == c && rows[1..][i].monthlyLimit == l;
        assert rows[i + 1] == rows[1..][i];
      }
      if exists i :: 0 <= i < |rows| && rows[i].userId == u &&
                     rows[i].category == c && rows[i].monthlyLimit == l {
        var i :| 0 <= i < |rows| && rows[i].userId == u &&
                 rows[i].category == c && rows[i].monthlyLimit == l;
        if i > 0 {
          assert rows[1..][i - 1] == rows[i];
        }
      }
    }
  }

  lemma {:induction false} ViewBudgetsOtherUser(rows: seq<Budget>, i: nat, x: Budget, u: int)
    requires i <= |rows| && x.userId != u
    requires i < |rows| ==> rows[i].userId != u
    ensures ViewBudgets(if i < |rows| then rows[i := x] else rows + [x], u) == ViewBudgets(rows, u)
    decreases |rows|
  {
    var r := if i < |rows| then rows[i := x] else rows + [x];
    if rows == [] {
      assert ViewBudgets([x], u) == [] + ViewBudgets([], u);
    } else {
      assert r[0] == (if i == 0 then x else rows[0]);
      if i == 0 {
        assert r[1..] == rows[1..];
      } else {
        var r' := if i - 1 < |rows[1..]| then rows[1..][i - 1 := x] else rows[1..] + [x];
        assert r[1..] == r';
        ViewBudgetsOtherUser(rows[1..], i - 1, x, u);
      }
    }
  }

  /**
   * Setting a budget lists it for its user and leaves every other user's
   * listing as it was.
   */
  lemma ViewAfterUpsert(rows: seq<Budget>, b: Budget, u: int)
    ensures (b.category, b.monthlyLimit) in ViewBudgets(Upsert(rows, b), b.userId)
    ensures u != b.userId ==> ViewBudgets(Upsert(rows, b), u) == ViewBudgets(rows, u)
  {
    var r := Upsert(rows, b);
    var k :| 0 <= k < |r| && r[k] == b;
    ViewBudgetsMembers(r, b.userId, b.category, b.monthlyLimit);
    if u != b.userId {
      match KeyIndex(rows, b.Key())
      case Some(i) =>
        ViewBudgetsOtherUser(rows, i, b, u);
      case None =>
        ViewBudgetsOtherUser(rows, |rows|, b, u);
    }
  }

  /**
   * The budget check's lookup: the limit of the first row in table order for
   * (user, category), whatever its month and year.
   */
  function BudgetFor(rows: seq<Budget>, u: int, c: string): (r: Option<int>)
    ensures r.None? <==> forall j :: 0 <= j < |rows| ==> !(rows[j].userId == u && rows[j].category == c)
    ensures r.Some? ==>
              exists i :: 0 <= i < |rows| && rows[i].userId == u && rows[i].category == c &&
                          r.value == rows[i].monthlyLimit &&
                          forall j :: 0 <= j < i ==> !(rows[j].userId == u && rows[j].category == c)
    decreases |rows|
  {
    if rows == [] then None
    else if rows[0].userId == u && rows[0].category == c then Some(rows[0].monthlyLimit)
    else
      var r := BudgetFor(rows[1..], u, c);
      assert r.Some? ==> exists i :: 0 <= i < |rows| && rows[i].userId == u && rows[i].category == c &&
                          r.value == rows[i].monthlyLimit &&
                          forall j :: 0 <= j < i ==> !(rows[j].userId == u && rows[j].category == c) by {
        if r.Some? {
          var i :| 0 <= i < |rows[1..]| && rows[1..][i].userId == u && rows[1..][i].category == c &&
                   r.value == rows[1..][i].monthlyLimit &&
                   forall j :: 0 <= j < i ==> !(rows[1..][j].userId == u && rows[1..][j].category == c);
          assert rows[i + 1] == rows[1..][i];
          forall j | 0 <= j < i + 1 ensures !(rows[j].userId == u && rows[j].category == c) {
            if j > 0 { assert rows[j] == rows[1..][j - 1]; }
          }
        }
      }
      assert r.None? ==> forall j :: 0 <= j < |rows| ==> !(rows[j].userId == u && rows[j].category == c) by {
        if r.None? {
          forall j | 0 <= j < |rows| ensures !(rows[j].userId == u && rows[j].category == c) {
            if j > 0 { assert rows[j] == rows[1..][j - 1]; }
          }
        }
      }
      r
  }

  /**
   * The lookup ignores month and year: with budgets for January and then
   * February of one category, the January limit is the one found.
   */
  lemma BudgetForIgnoresPeriod(u: int, c: string)
    ensures BudgetFor(Upsert(Upsert([], Budget(u, c, 10000, 1, 2024)), Budget(u, c, 50000, 2, 2024)), u, c)
            == Some(10000)
  {
    var r1 := Upsert([], Budget(u, c, 10000, 1, 2024));
    assert r1 == [Budget(u, c, 10000, 1, 2024)];
    var r2 := Upsert(r1, Budget(u, c, 50000, 2, 2024));
    assert r2 == r1 + [Budget(u, c, 50000, 2, 2024)];
    assert r2[0] == Budget(u, c, 10000, 1, 2024);
  }
}
