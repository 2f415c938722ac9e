/** The demo catalogue (generate_demo_dataset.py, `extract_unique_addresses`):
    the distinct second columns of a tab-separated address-pair file, written
    one per line in ascending order, and their number. */
module DemoDataset {

  import opened Errors
  import opened Text
  import opened Ordering

  /** The reading loop over the lines' columns: `_, addr2, _ = ...` adds the
      second column to the set, and a row that does not have exactly three
      columns raises ValueError while unpacking. */
  function SecondColumns(rows: seq<seq<string>>): Result<set<string>> {
    if |rows| == 0 then Ok({})
    else
      var n := |rows| - 1;
      var prev := SecondColumns(rows[..n]);
      if prev.Err? then prev
      else if |rows[n]| != 3 then Err(WrongFieldCount(n, |rows[n]|))
      else Ok(prev.value + {rows[n][1]})
  }

  /** The addresses of a tab-separated file: `line.strip().split('\t')` of every line. */
  function Addresses(lines: seq<string>): Result<set<string>> {
    SecondColumns(ColumnRows(lines))
  }

  /** Reading succeeds exactly when every row has three columns. */
  lemma {:induction false} SecondColumnsOk(rows: seq<seq<string>>)
    ensures SecondColumns(rows).Ok? <==> forall i :: 0 <= i < |rows| ==> |rows[i]| == 3
  {
    if |rows| > 0 {
      var n := |rows| - 1;
      var prefix := rows[..n];
      SecondColumnsOk(prefix);
      assert forall i :: 0 <= i < n ==> prefix[i] == rows[i];
    }
  }

  /** A failed read reports the first row without three columns, and how
      many it has. */
  lemma {:induction false} SecondColumnsFailsAt(rows: seq<seq<string>>)
    requires SecondColumns(rows).Err?
    ensures exists i :: (0 <= i < |rows| && |rows[i]| != 3
        && SecondColumns(rows).error == WrongFieldCount(i, |rows[i]|)
        && forall j :: 0 <= j < i ==> |rows[j]| == 3)
  {
    var n := |rows| - 1;
    var prefix := rows[..n];
    assert forall j :: 0 <= j < n ==> prefix[j] == rows[j];
    if SecondColumns(prefix).Err? {
      SecondColumnsFailsAt(prefix);
    } else {
      SecondColumnsOk(prefix);
    }
  }

  /** The set holds exactly the second columns, and nothing from the other two. */
  lemma {:induction false} SecondColumnsMembers(rows: seq<seq<string>>)
    requires SecondColumns(rows).Ok?
    ensures forall a :: a in SecondColumns(rows).value <==>
      exists i :: 0 <= i < |rows| && |rows[i]| == 3 && rows[i][1] == a
  {
    if |rows| > 0 {
      var n := |rows| - 1;
      var prefix := rows[..n];
      SecondColumnsMembers(prefix);
      assert forall i :: 0 <= i < n ==> prefix[i] == rows[i];
    }
  }

  /** A bad row in a prefix is the error of the whole file. */
  lemma {:induction false} SecondColumnsStops(rows: seq<seq<string>>, i: nat)
    requires i <= |rows| && SecondColumns(rows[..i]).Err?
    ensures SecondColumns(rows) == SecondColumns(rows[..i])
    decreases |rows| - i
  {
    if i < |rows| {
      var n := |rows| - 1;
      assert rows[..n][..i] == rows[..i];
      SecondColumnsStops(rows[..n], i);
    } else {
      assert rows[..i] == rows;
    }
  }

  /** Reading a file succeeds exactly when every line has three columns. */
  lemma AddressesOk(lines: seq<string>)
    ensures Addresses(lines).Ok? <==> forall i :: 0 <= i < |lines| ==> |TabFields(lines[i])| == 3
  {
    var rows := ColumnRows(lines);
    ColumnRowsLength(lines);
    SecondColumnsOk(rows);
    forall i | 0 <= i < |lines| ensures rows[i] == TabFields(lines[i]) {
      ColumnRowsAt(lines, i);
    }
  }

  /** The reading loop, adding to `unique_addresses` in place. */
  method ReadAddresses(lines: seq<string>) returns (r: Result<set<string>>)
    ensures r == Addresses(lines)
  {
    ghost var rows := ColumnRows(lines);
    ColumnRowsLength(lines);
    var uniqueAddresses: set<string> := {};
    for i := 0 to |lines|
      invariant SecondColumns(rows[..i]) == Ok(uniqueAddresses)
    {
      assert rows[..i + 1][..i] == rows[..i];
      var columns := TabFields(lines[i]);
      ColumnRowsAt(lines, i);
      if |columns| != 3 {
        SecondColumnsStops(rows, i + 1);
        return Err(WrongFieldCount(i, |columns|));
      }
      uniqueAddresses := uniqueAddresses + {columns[1]};
    }
    assert rows[..|lines|] == rows;
    return Ok(uniqueAddresses);
  }

  /** What `extract_unique_addresses` writes and returns. */
  datatype Extracted = Extracted(written: seq<string>, count: nat)

  /** `extract_unique_addresses`: read the distinct second columns, write them
      in ascending order, and return how many there are. */
  method ExtractUniqueAddresses(lines: seq<string>) returns (r: Result<Extracted>)
    ensures r.Ok? <==> Addresses(lines).Ok?
    ensures r.Ok? <==> forall i :: 0 <= i < |lines| ==> |TabFields(lines[i])| == 3
    ensures r.Err? ==> r.error == Addresses(lines).error
    ensures r.Ok? ==> StrictlySorted(r.value.written)
    ensures r.Ok? ==> forall a :: a in r.value.written <==> a in Addresses(lines).value
    ensures r.Ok? ==> r.value.count == |r.value.written|
  {
    AddressesOk(lines);
    var uniqueAddresses := ReadAddresses(lines);
    if uniqueAddresses.Err? {
      return Err(uniqueAddresses.error);
    }
    var written := SortedSet(uniqueAddresses.value);
    return Ok(Extracted(written, |uniqueAddresses.value|));
  }
}
