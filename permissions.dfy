/** `getPermissionsForUser`: find the caller's row in the permission sheet and collect the
    trimmed, non-empty cells of every column after the first, in header order. */
module Permissions {
  import opened Wrappers
  import opened Text
  import opened Sheet

  /** The cells the collector looks at, already trimmed: one per header after the first,
      in header order (`headerValues.slice(1)`). */
  function Scanned(headers: seq<string>, row: Row): (cells: seq<string>)
    ensures |cells| == if |headers| == 0 then 0 else |headers| - 1
    ensures forall k :: 0 <= k < |cells| ==> cells[k] == Trim(Cell(headers, row, k + 1))
    ensures forall k :: 0 <= k < |cells| ==> Trimmed(cells[k])
  {
    seq(if |headers| == 0 then 0 else |headers| - 1, k => Trim(Cell(headers, row, k + 1)))
  }

  /** The non-empty strings of `xs`, in their original order and with repetitions. */
  function NonEmpty(xs: seq<string>): (r: seq<string>)
    ensures |r| <= |xs|
    ensures forall k :: 0 <= k < |r| ==> r[k] != "" && r[k] in xs
  {
    if xs == [] then []
    else
      var last := xs[|xs| - 1];
      NonEmpty(xs[..|xs| - 1]) + (if last == "" then [] else [last])
  }

  /** One more string is kept exactly when it is non-empty, after everything kept before it. */
  lemma {:induction false} NonEmptySnoc(xs: seq<string>, x: string)
    ensures NonEmpty(xs + [x]) == NonEmpty(xs) + if x == "" then [] else [x]
  {
  }

  /** Scanning one more column appends that column's trimmed cell. */
  lemma {:induction false} ScannedStep(headers: seq<string>, row: Row, i: nat)
    requires 1 <= i < |headers|
    ensures Scanned(headers, row)[..i] == Scanned(headers, row)[..i - 1] + [Trim(Cell(headers, row, i))]
  {
  }

  /** Keeping the non-empty strings commutes with concatenation: nothing is reordered. */
  lemma {:induction false} NonEmptyAppend(xs: seq<string>, ys: seq<string>)
    ensures NonEmpty(xs + ys) == NonEmpty(xs) + NonEmpty(ys)
  {
    if ys != [] {
      var init := ys[..|ys| - 1];
      assert (xs + ys)[..|xs + ys| - 1] == xs + init;
      NonEmptyAppend(xs, init);
    } else {
      assert xs + ys == xs;
    }
  }

  /** Every non-empty string occurs in the result exactly as often as in the input, and the
      empty string never does: nothing is dropped, duplicated or invented. */
  lemma {:induction false} NonEmptyCount(xs: seq<string>, v: string)
    ensures multiset(NonEmpty(xs))[v] == if v == "" then 0 else multiset(xs)[v]
  {
    if xs != [] {
      var init := xs[..|xs| - 1];
      assert xs == init + [xs[|xs| - 1]];
      NonEmptyCount(init, v);
    }
  }

  /** `rows.find` over the permission sheet: the first row whose trimmed first cell equals
      `username` exactly as given (the username itself is not trimmed). */
  function FindUserRow(permissions: Table, username: string): (r: Option<nat>)
    ensures r.Some? ==>
      r.value < |permissions.rows| && Trim(Cell(permissions.headers, permissions.rows[r.value], 0)) == username
    ensures r.Some? ==> forall j :: 0 <= j < r.value ==>
      Trim(Cell(permissions.headers, permissions.rows[j], 0)) != username
    ensures r.None? <==> forall j :: 0 <= j < |permissions.rows| ==>
      Trim(Cell(permissions.headers, permissions.rows[j], 0)) != username
  {
    FindIndex(permissions.rows, row => Trim(Cell(permissions.headers, row, 0)) == username)
  }

  /** The list `getPermissionsForUser` returns: empty when no row belongs to the user,
      otherwise that row's trimmed non-empty cells after the identity column. */
  function PermissionsFor(permissions: Table, username: string): (r: seq<string>)
    ensures FindUserRow(permissions, username).None? ==> r == []
    ensures r != [] ==> |r| < |permissions.headers|
    ensures forall k :: 0 <= k < |r| ==> r[k] != "" && Trimmed(r[k])
  {
    match FindUserRow(permissions, username)
    case None => []
    case Some(i) =>
      var cells := Scanned(permissions.headers, permissions.rows[i]);
      NonEmpty(cells)
  }

  /** The collector as the source writes it: an accumulator that a loop over the headers after
      the first appends each trimmed non-empty cell to. */
  method GetPermissionsForUser(permissions: Table, username: string) returns (userPermissions: seq<string>)
    ensures userPermissions == PermissionsFor(permissions, username)
  {
    userPermissions := [];
    var userRow := FindUserRow(permissions, username);
    if userRow.Some? {
      var headers, row := permissions.headers, permissions.rows[userRow.value];
      ghost var cells := Scanned(headers, row);
      var i := 1;
      assert cells[..0] == [];
      assert userPermissions == NonEmpty(cells[..i - 1]);
      while i < |headers|
        invariant 1 <= i <= |cells| + 1
        invariant userPermissions == NonEmpty(cells[..i - 1])
      {
        var permission := Trim(Cell(headers, row, i));
        ScannedStep(headers, row, i);
        NonEmptySnoc(cells[..i - 1], permission);
        if permission != "" {
          userPermissions := userPermissions + [permission];
        }
        assert userPermissions == NonEmpty(cells[..i]);
        i := i + 1;
      }
      assert cells[..i - 1] == cells;
    }
  }

  /** A username with whitespace at either end never finds a permission row, since every
      first cell is compared after trimming: such a caller always gets the empty list. */
  lemma {:induction false} UntrimmedUsernameHasNoPermissions(permissions: Table, username: string)
    requires !Trimmed(username)
    ensures PermissionsFor(permissions, username) == []
  {
  }

  /** First match wins: rows after the user's first row never change the result. */
  lemma {:induction false} LaterRowsIgnored(permissions: Table, more: seq<Row>, username: string)
    requires FindUserRow(permissions, username).Some?
    ensures PermissionsFor(Table(permissions.headers, permissions.rows + more), username)
         == PermissionsFor(permissions, username)
  {
    var p := row => Trim(Cell(permissions.headers, row, 0)) == username;
    FindIndexIgnoresLaterRows(permissions.rows, more, p);
    var i := FindUserRow(permissions, username).value;
    assert (permissions.rows + more)[i] == permissions.rows[i];
  }

  /** The user's entries are exactly the non-empty trimmed cells of the columns after the first:
      each value occurs as often as there are such cells holding it. */
  lemma {:induction false} PermissionsCountCells(permissions: Table, username: string, v: string)
    requires FindUserRow(permissions, username).Some?
    ensures var row := permissions.rows[FindUserRow(permissions, username).value];
      multiset(PermissionsFor(permissions, username))[v]
        == if v == "" then 0 else multiset(Scanned(permissions.headers, row))[v]
  {
    var row := permissions.rows[FindUserRow(permissions, username).value];
    NonEmptyCount(Scanned(permissions.headers, row), v);
  }
}
