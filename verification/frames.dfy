/**
 * The table clean-up `embedd_data` does before indexing: drop the rows with
 * a missing `ID` or `PHOTO_URL`, keep the first row of each `ID`, and find
 * the rows whose id text is not in the store yet (backend/embeddings.py:186-207).
 */
module Frames {
  import opened Values
  import opened IndexSpec

  function IdOf(row: Record): Value
  {
    Get(row, "ID", Null)
  }

  /** `dropna(subset=["ID", "PHOTO_URL"])`. */
  function DropNA(rows: seq<Record>): (r: seq<Record>)
    ensures |r| <= |rows|
    ensures forall i :: 0 <= i < |r| ==> !IsNA(IdOf(r[i])) && !IsNA(PhotoUrl(r[i]))
    ensures forall i :: 0 <= i < |r| ==> r[i] in rows
    ensures forall i :: 0 <= i < |rows| && !IsNA(IdOf(rows[i])) && !IsNA(PhotoUrl(rows[i])) ==> rows[i] in r
  {
    if rows == [] then []
    else
      var r := DropNA(rows[..|rows| - 1]);
      var row := rows[|rows| - 1];
      assert forall i :: 0 <= i < |rows| - 1 ==> rows[..|rows| - 1][i] == rows[i];
      if IsNA(IdOf(row)) || IsNA(PhotoUrl(row)) then r else r + [row]
  }

  /** Dropping commutes with concatenation. */
  lemma {:induction false} DropNAAppend(a: seq<Record>, b: seq<Record>)
    ensures DropNA(a + b) == DropNA(a) + DropNA(b)
    decreases |b|
  {
    if b == [] {
      assert a + b == a;
    } else {
      var b' := b[..|b| - 1];
      assert (a + b)[..|a + b| - 1] == a + b';
      DropNAAppend(a, b');
    }
  }

  /**
   * `dropna` is the order-preserving filter of the rows whose `ID` and
   * `PHOTO_URL` are both present: each row is kept or dropped on its own, in place.
   */
  lemma DropNAFilters(a: seq<Record>, row: Record, b: seq<Record>)
    ensures DropNA(a + [row] + b)
            == DropNA(a) + (if IsNA(IdOf(row)) || IsNA(PhotoUrl(row)) then [] else [row]) + DropNA(b)
  {
    DropNAAppend(a, [row]);
    DropNAAppend(a + [row], b);
    assert [row][..0] == [];
  }

  /** The `ID` values present. */
  function IdsIn(rows: seq<Record>): set<Value>
  {
    set i | 0 <= i < |rows| :: IdOf(rows[i])
  }

  /** `drop_duplicates(subset=["ID"])`: the first row of each id, in order. */
  function Dedup(rows: seq<Record>): (r: seq<Record>)
    ensures IdsIn(r) == IdsIn(rows)
    ensures forall i, j :: 0 <= i < j < |r| ==> IdOf(r[i]) != IdOf(r[j])
    ensures forall i :: 0 <= i < |r| ==> r[i] in rows
  {
    if rows == [] then []
    else
      var prefix := rows[..|rows| - 1];
      var r := Dedup(prefix);
      var row := rows[|rows| - 1];
      assert rows == prefix + [row];
      assert IdsIn(rows) == IdsIn(prefix) + {IdOf(row)} by {
        assert forall i :: 0 <= i < |prefix| ==> prefix[i] == rows[i];
        assert rows[|prefix|] == row;
      }
      if IdOf(row) in IdsIn(r) then r
      else
        assert IdsIn(r + [row]) == IdsIn(r) + {IdOf(row)} by {
          assert forall i :: 0 <= i < |r| ==> (r + [row])[i] == r[i];
          assert (r + [row])[|r|] == row;
        }
        r + [row]
  }

  /** The position of the first row whose id is `id`. */
  ghost function FirstWith(rows: seq<Record>, id: Value): (i: nat)
    requires id in IdsIn(rows)
    ensures i < |rows| && IdOf(rows[i]) == id
  {
    if IdOf(rows[0]) == id then 0
    else
      assert id in IdsIn(rows[1..]) by {
        var k :| 0 <= k < |rows| && IdOf(rows[k]) == id;
        assert rows[1..][k - 1] == rows[k];
      }
      1 + FirstWith(rows[1..], id)
  }

  /** No row before the first one carries its id. */
  lemma {:induction false} FirstWithFirst(rows: seq<Record>, id: Value)
    requires id in IdsIn(rows)
    ensures forall j :: 0 <= j < FirstWith(rows, id) ==> IdOf(rows[j]) != id
  {
    if IdOf(rows[0]) != id {
      assert id in IdsIn(rows[1..]) by {
        var k :| 0 <= k < |rows| && IdOf(rows[k]) == id;
        assert rows[1..][k - 1] == rows[k];
      }
      FirstWithFirst(rows[1..], id);
      assert forall j :: 1 <= j < |rows| ==> rows[j] == rows[1..][j - 1];
    }
  }

  /** A row with id `id` and none before it is the first one. */
  lemma FirstWithAt(rows: seq<Record>, i: nat)
    requires i < |rows| && forall j :: 0 <= j < i ==> IdOf(rows[j]) != IdOf(rows[i])
    ensures IdOf(rows[i]) in IdsIn(rows) && FirstWith(rows, IdOf(rows[i])) == i
  {
    FirstWithFirst(rows, IdOf(rows[i]));
  }

  /** Row `k` of `r` is the first row of `rows` with its id, and those first positions increase along `r`. */
  ghost predicate FirstRows(rows: seq<Record>, r: seq<Record>)
  {
    FirstRowsAt(rows, r) && FirstRowsOrdered(rows, r)
  }

  ghost predicate FirstRowsAt(rows: seq<Record>, r: seq<Record>)
  {
    forall k :: 0 <= k < |r| ==> IdOf(r[k]) in IdsIn(rows) && r[k] == rows[FirstWith(rows, IdOf(r[k]))]
  }

  ghost predicate FirstRowsOrdered(rows: seq<Record>, r: seq<Record>)
    requires forall k :: 0 <= k < |r| ==> IdOf(r[k]) in IdsIn(rows)
  {
    forall k, l :: 0 <= k < l < |r| ==> FirstWith(rows, IdOf(r[k])) < FirstWith(rows, IdOf(r[l]))
  }

  /** A row appended to the table leaves the first rows of the ids already present where they were. */
  lemma FirstWithExtend(prefix: seq<Record>, row: Record, id: Value)
    requires id in IdsIn(prefix)
    ensures id in IdsIn(prefix + [row]) && FirstWith(prefix + [row], id) == FirstWith(prefix, id)
  {
    var rows := prefix + [row];
    var i := FirstWith(prefix, id);
    FirstWithFirst(prefix, id);
    assert forall j :: 0 <= j <= i ==> rows[j] == prefix[j];
    FirstWithAt(rows, i);
  }

  /** Appending a row to the table keeps a selection of first rows valid, all before the new row. */
  lemma FirstRowsGrow(prefix: seq<Record>, row: Record, r0: seq<Record>)
    requires FirstRows(prefix, r0)
    ensures FirstRows(prefix + [row], r0)
    ensures forall k :: 0 <= k < |r0| ==> FirstWith(prefix + [row], IdOf(r0[k])) < |prefix|
  {
    var rows := prefix + [row];
    forall k | 0 <= k < |r0|
      ensures IdOf(r0[k]) in IdsIn(rows) && FirstWith(rows, IdOf(r0[k])) == FirstWith(prefix, IdOf(r0[k]))
      ensures r0[k] == rows[FirstWith(rows, IdOf(r0[k]))]
    {
      FirstWithExtend(prefix, row, IdOf(r0[k]));
      assert rows[FirstWith(prefix, IdOf(r0[k]))] == prefix[FirstWith(prefix, IdOf(r0[k]))];
    }
  }

  /** A row whose id is new to the table extends the selection of first rows. */
  lemma FirstRowsAppend(prefix: seq<Record>, row: Record, r0: seq<Record>)
    requires FirstRows(prefix + [row], r0)
    requires forall k :: 0 <= k < |r0| ==> FirstWith(prefix + [row], IdOf(r0[k])) < |prefix|
    requires forall j :: 0 <= j < |prefix| ==> IdOf(prefix[j]) != IdOf(row)
    ensures FirstRows(prefix + [row], r0 + [row])
  {
    var rows := prefix + [row];
    assert forall j :: 0 <= j < |prefix| ==> rows[j] == prefix[j];
    FirstWithAt(rows, |prefix|);
    FirstRowsAppendRows(rows, row, r0);
    FirstRowsAppendOrder(rows, row, r0);
  }

  lemma FirstRowsAppendRows(rows: seq<Record>, row: Record, r0: seq<Record>)
    requires FirstRows(rows, r0) && |rows| > 0 && rows[|rows| - 1] == row
    requires IdOf(row) in IdsIn(rows) && FirstWith(rows, IdOf(row)) == |rows| - 1
    ensures FirstRowsAt(rows, r0 + [row])
  {
    var r := r0 + [row];
    forall k | 0 <= k < |r|
      ensures IdOf(r[k]) in IdsIn(rows) && r[k] == rows[FirstWith(rows, IdOf(r[k]))]
    {
      FirstRowsAppendAt(rows, row, r0, k);
    }
  }

  lemma FirstRowsAppendAt(rows: seq<Record>, row: Record, r0: seq<Record>, k: nat)
    requires FirstRowsAt(rows, r0) && |rows| > 0 && rows[|rows| - 1] == row
    requires IdOf(row) in IdsIn(rows) && FirstWith(rows, IdOf(row)) == |rows| - 1
    requires k <= |r0|
    ensures var r := r0 + [row];
      IdOf(r[k]) in IdsIn(rows) && r[k] == rows[FirstWith(rows, IdOf(r[k]))]
  {
    if k < |r0| {
      assert (r0 + [row])[k] == r0[k];
    } else {
      assert (r0 + [row])[k] == row;
    }
  }

  lemma FirstRowsAppendOrder(rows: seq<Record>, row: Record, r0: seq<Record>)
    requires FirstRows(rows, r0) && |rows| > 0
    requires IdOf(row) in IdsIn(rows) && FirstWith(rows, IdOf(row)) == |rows| - 1
    requires forall k :: 0 <= k < |r0| ==> FirstWith(rows, IdOf(r0[k])) < |rows| - 1
    ensures FirstRowsAt(rows, r0 + [row]) ==> FirstRowsOrdered(rows, r0 + [row])
  {
    var r := r0 + [row];
    forall k, l | 0 <= k < l < |r|
      ensures FirstWith(rows, IdOf(r[k])) < FirstWith(rows, IdOf(r[l]))
    {
      assert r[k] == r0[k];
      if l < |r0| {
        assert r[l] == r0[l];
      } else {
        assert r[l] == row;
      }
    }
  }

  lemma FirstRowsStep(prefix: seq<Record>, row: Record, r0: seq<Record>)
    requires FirstRows(prefix, r0) && IdsIn(r0) == IdsIn(prefix)
    ensures FirstRows(prefix + [row], if IdOf(row) in IdsIn(r0) then r0 else r0 + [row])
  {
    FirstRowsGrow(prefix, row, r0);
    if IdOf(row) !in IdsIn(r0) {
      forall j | 0 <= j < |prefix| ensures IdOf(prefix[j]) != IdOf(row) {
        assert IdOf(prefix[j]) in IdsIn(prefix);
      }
      FirstRowsAppend(prefix, row, r0);
    }
  }

  /**
   * `drop_duplicates` keeps the first row of each id and keeps the table's
   * order: result row `k` is the first row with its id, and those first
   * positions increase along the result.
   */
  lemma {:induction false} DedupKeepsFirst(rows: seq<Record>)
    ensures FirstRows(rows, Dedup(rows))
  {
    if rows != [] {
      var prefix := rows[..|rows| - 1];
      var row := rows[|rows| - 1];
      assert rows == prefix + [row];
      var r0 := Dedup(prefix);
      assert Dedup(rows) == if IdOf(row) in IdsIn(r0) then r0 else r0 + [row];
      DedupKeepsFirst(prefix);
      FirstRowsStep(prefix, row, r0);
    }
  }

  /** The table `embedd_data` indexes. */
  function Frame(rows: seq<Record>): seq<Record>
  {
    Dedup(DropNA(rows))
  }

  /** Every row of the indexed table is a row of the input, so its id stays readable. */
  lemma FrameReadable(rows: seq<Record>)
    requires IdsReadable(rows)
    ensures IdsReadable(Frame(rows))
  {
    var d := DropNA(rows);
    assert IdsReadable(d) by {
      forall i | 0 <= i < |d| ensures HasText(Get(d[i], "ID", Null)) {
        var j :| 0 <= j < |rows| && rows[j] == d[i];
      }
    }
    var f := Dedup(d);
    forall i | 0 <= i < |f| ensures HasText(Get(f[i], "ID", Null)) {
      var j :| 0 <= j < |d| && d[j] == f[i];
    }
  }

  /** `items_df[~items_df["ID"].astype(str).isin(existing_ids)]`. */
  function NewRows(rows: seq<Record>, existing: set<string>): (r: seq<Record>)
    requires IdsReadable(rows)
    ensures IdsReadable(r) && |r| <= |rows|
    ensures forall i :: 0 <= i < |r| ==> IdText(r[i]) !in existing && r[i] in rows
    ensures forall i :: 0 <= i < |rows| && IdText(rows[i]) !in existing ==> rows[i] in r
  {
    if rows == [] then []
    else
      var prefix := rows[..|rows| - 1];
      var row := rows[|rows| - 1];
      assert forall i :: 0 <= i < |prefix| ==> prefix[i] == rows[i];
      var r := NewRows(prefix, existing);
      if IdText(row) in existing then r else r + [row]
  }

  /** Filtering commutes with concatenation. */
  lemma {:induction false} NewRowsAppend(a: seq<Record>, b: seq<Record>, existing: set<string>)
    requires IdsReadable(a) && IdsReadable(b)
    ensures IdsReadable(a + b) && NewRows(a + b, existing) == NewRows(a, existing) + NewRows(b, existing)
    decreases |b|
  {
    ReadableAppend(a, b);
    if b == [] {
      assert a + b == a;
    } else {
      var ab := a + b;
      var b' := b[..|b| - 1];
      var last := b[|b| - 1];
      assert ab[..|ab| - 1] == a + b';
      assert ab[|ab| - 1] == last;
      assert IdsReadable(b') by {
        assert forall i :: 0 <= i < |b'| ==> b'[i] == b[i];
      }
      NewRowsAppend(a, b', existing);
      var t := if IdText(last) in existing then [] else [last];
      assert NewRows(ab, existing) == NewRows(a + b', existing) + t;
      assert NewRows(b, existing) == NewRows(b', existing) + t;
    }
  }

  /** The new rows are the order-preserving filter of the rows whose id text is not stored. */
  lemma NewRowsFilters(a: seq<Record>, row: Record, b: seq<Record>, existing: set<string>)
    requires IdsReadable(a) && HasText(Get(row, "ID", Null)) && IdsReadable(b)
    ensures IdsReadable(a + [row] + b)
    ensures NewRows(a + [row] + b, existing)
            == NewRows(a, existing) + (if IdText(row) in existing then [] else [row]) + NewRows(b, existing)
  {
    assert IdsReadable([row]);
    NewRowsAppend(a, [row], existing);
    NewRowsAppend(a + [row], b, existing);
    assert [row][..0] == [];
  }

  /** Nothing is new exactly when every row's id text is already stored. */
  lemma NewRowsNone(rows: seq<Record>, existing: set<string>)
    requires IdsReadable(rows)
    ensures NewRows(rows, existing) == [] <==> forall i :: 0 <= i < |rows| ==> IdText(rows[i]) in existing
  {
    var r := NewRows(rows, existing);
    if r != [] {
      assert r[0] in rows;
    }
  }

  /** Leaving out the stored rows leaves out their fetches: strictly fewer if one of them is eligible. */
  lemma {:induction false} NewRowsFetchFewer(rows: seq<Record>, existing: set<string>)
    requires IdsReadable(rows)
    ensures EligibleCount(NewRows(rows, existing)) <= EligibleCount(rows)
    ensures (exists i :: 0 <= i < |rows| && Eligible(rows[i]) && IdText(rows[i]) in existing) ==>
      EligibleCount(NewRows(rows, existing)) < EligibleCount(rows)
  {
    if rows != [] {
      var prefix := rows[..|rows| - 1];
      NewRowsFetchFewer(prefix, existing);
      var r := NewRows(prefix, existing);
      var row := rows[|rows| - 1];
      if IdText(row) !in existing {
        assert (r + [row])[..|r + [row]| - 1] == r;
      }
      if exists i :: 0 <= i < |rows| && Eligible(rows[i]) && IdText(rows[i]) in existing {
        var i :| 0 <= i < |rows| && Eligible(rows[i]) && IdText(rows[i]) in existing;
        if i < |rows| - 1 {
          assert prefix[i] == rows[i];
        }
      }
    }
  }
}
