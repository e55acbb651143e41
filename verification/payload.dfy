/**
 * `create_payload`: the header row becomes a map from upper-cased header to column, the
 * required headers are checked, and every data row that is not entirely empty becomes one
 * item of the payload, in input order. The first failure aborts the whole build.
 */
module Payload {
  import opened Wrappers
  import opened Text
  import opened Numeric
  import opened LineItems

  /** The module-level `required_headers`, in the order they are checked. */
  const RequiredHeaders: seq<string> := [PartNoKey, QtyKey]

  /** `{"items": [...]}`, the body of the purchase-order update. */
  datatype OrderPayload = OrderPayload(items: seq<LineItem>)

  /** `{header.upper(): i for i, header in enumerate(headers)}`. */
  function HeaderMap(headers: seq<string>): map<string, nat> {
    if headers == [] then map[]
    else HeaderMap(headers[..|headers| - 1])[Upper(headers[|headers| - 1]) := |headers| - 1]
  }

  /** The keys of the header map are exactly the upper-cased headers. */
  lemma {:induction false} HeaderMapKeys(headers: seq<string>)
    ensures forall i :: 0 <= i < |headers| ==> Upper(headers[i]) in HeaderMap(headers)
    ensures forall k :: k in HeaderMap(headers) ==>
      HeaderMap(headers)[k] < |headers| && Upper(headers[HeaderMap(headers)[k]]) == k
  {
    if headers != [] {
      var last := |headers| - 1;
      var init := headers[..last];
      HeaderMapKeys(init);
      assert forall i :: 0 <= i < last ==> init[i] == headers[i];
    }
  }

  /** A header that occurs more than once maps to its last column. */
  lemma {:induction false} HeaderMapLastWins(headers: seq<string>)
    ensures forall k, j :: k in HeaderMap(headers) && HeaderMap(headers)[k] < j < |headers| ==> Upper(headers[j]) != k
  {
    if headers != [] {
      var last := |headers| - 1;
      var init := headers[..last];
      HeaderMapLastWins(init);
      HeaderMapKeys(init);
      assert forall i :: 0 <= i < last ==> init[i] == headers[i];
    }
  }

  /** The position of the first required header missing from the map, or `|required|` if none is. */
  function FirstMissing(required: seq<string>, headersMap: map<string, nat>): (i: nat)
    ensures i <= |required|
    ensures forall k :: 0 <= k < i ==> required[k] in headersMap
    ensures i < |required| ==> required[i] !in headersMap
  {
    if required == [] || required[0] !in headersMap then 0
    else 1 + FirstMissing(required[1..], headersMap)
  }

  /** `not any(line)`: every cell is the empty string (a row of no cells included). */
  predicate IsBlankRow(row: seq<string>) {
    forall i :: 0 <= i < |row| ==> row[i] == ""
  }

  /** The rows that are not skipped, in order. */
  function Kept(rows: seq<seq<string>>): (r: seq<seq<string>>)
    ensures |r| <= |rows|
    ensures forall i :: 0 <= i < |r| ==> !IsBlankRow(r[i])
  {
    if rows == [] then []
    else (if IsBlankRow(rows[0]) then [] else [rows[0]]) + Kept(rows[1..])
  }

  /** A row is dropped exactly when it is blank: every other row is kept, and the order is kept too. */
  lemma {:induction false} KeptIsNonBlankRows(rows: seq<seq<string>>)
    ensures forall i :: 0 <= i < |rows| && !IsBlankRow(rows[i]) ==> rows[i] in Kept(rows)
    ensures forall r :: r in Kept(rows) ==> r in rows && !IsBlankRow(r)
    ensures (forall i :: 0 <= i < |rows| ==> !IsBlankRow(rows[i])) ==> Kept(rows) == rows
  {
    KeptHasNonBlank(rows);
    KeptFromRows(rows);
    KeptAllNonBlank(rows);
  }

  lemma {:induction false} KeptHasNonBlank(rows: seq<seq<string>>)
    ensures forall i :: 0 <= i < |rows| && !IsBlankRow(rows[i]) ==> rows[i] in Kept(rows)
  {
    if rows != [] {
      KeptHasNonBlank(rows[1..]);
      forall i | 1 <= i < |rows| && !IsBlankRow(rows[i])
        ensures rows[i] in Kept(rows)
      {
        assert rows[i] == rows[1..][i - 1];
      }
    }
  }

  lemma {:induction false} KeptFromRows(rows: seq<seq<string>>)
    ensures forall r :: r in Kept(rows) ==> r in rows && !IsBlankRow(r)
  {
    if rows != [] {
      KeptFromRows(rows[1..]);
      assert forall r :: r in rows[1..] ==> r in rows;
    }
  }

  lemma {:induction false} KeptAllNonBlank(rows: seq<seq<string>>)
    ensures (forall i :: 0 <= i < |rows| ==> !IsBlankRow(rows[i])) ==> Kept(rows) == rows
  {
    if rows != [] && forall i :: 0 <= i < |rows| ==> !IsBlankRow(rows[i]) {
      assert forall i :: 0 <= i < |rows[1..]| ==> rows[1..][i] == rows[i + 1];
      KeptAllNonBlank(rows[1..]);
    }
  }

  /**
   * Skipping works row by row and keeps the order: the kept rows of two stretches of the file
   * are the kept rows of the first followed by those of the second, duplicates included.
   */
  lemma {:induction false} KeptAppend(a: seq<seq<string>>, b: seq<seq<string>>)
    ensures Kept(a + b) == Kept(a) + Kept(b)
  {
    if a == [] {
      assert a + b == b;
    } else {
      assert (a + b)[0] == a[0] && (a + b)[1..] == a[1..] + b;
      KeptAppend(a[1..], b);
    }
  }

  /** A single row is dropped exactly when it is blank, and otherwise kept as it is. */
  lemma KeptOne(row: seq<string>)
    ensures Kept([row]) == if IsBlankRow(row) then [] else [row]
  {
    assert [row][1..] == [];
  }

  /** Puts `items` in front of a successful outcome's items; a failure stays as it is. */
  function Prepend(items: seq<LineItem>, o: Outcome<seq<LineItem>>): Outcome<seq<LineItem>> {
    if o.result.Ok? then Outcome(Ok(items + o.result.value), o.trace) else o
  }

  lemma PrependNothing(o: Outcome<seq<LineItem>>)
    ensures Prepend([], o) == o
  {
    if o.result.Ok? {
      assert [] + o.result.value == o.result.value;
    }
  }

  lemma PrependTwice(front: seq<LineItem>, middle: seq<LineItem>, o: Outcome<seq<LineItem>>)
    ensures Prepend(front, Prepend(middle, o)) == Prepend(front + middle, o)
  {
    if o.result.Ok? {
      assert front + (middle + o.result.value) == (front + middle) + o.result.value;
    }
  }

  /** The row loop: skip blank rows, process the others in order, stop at the first error. */
  function ProcessRows(
    rows: seq<seq<string>>, headersMap: map<string, nat>, createInventory: bool, erp: Erp, history: seq<Effect>
  ): (o: Outcome<seq<LineItem>>)
    ensures |o.trace| >= |history| && o.trace[..|history|] == history
    ensures o.result.Err? ==> o.result.error.PartNoUnbound? || o.result.error.BadValues? || o.result.error.CreationFailed?
    decreases |rows|
  {
    if rows == [] then Outcome(Ok([]), history)
    else if IsBlankRow(rows[0]) then ProcessRows(rows[1..], headersMap, createInventory, erp, history)
    else
      var step := ProcessLineItem(rows[0], headersMap, createInventory, erp, history);
      if step.result.Err? then Outcome(Err(step.result.error), step.trace)
      else Prepend([step.result.value], ProcessRows(rows[1..], headersMap, createInventory, erp, step.trace))
  }

  /** One step of the row loop: a blank row is skipped, a failing row ends the loop, any other row is prepended. */
  lemma ProcessRowsStep(
    rows: seq<seq<string>>, headersMap: map<string, nat>, createInventory: bool, erp: Erp, history: seq<Effect>)
    requires rows != []
    ensures IsBlankRow(rows[0]) ==>
      ProcessRows(rows, headersMap, createInventory, erp, history)
        == ProcessRows(rows[1..], headersMap, createInventory, erp, history)
    ensures var step := ProcessLineItem(rows[0], headersMap, createInventory, erp, history);
      !IsBlankRow(rows[0]) && step.result.Err? ==>
        ProcessRows(rows, headersMap, createInventory, erp, history) == Outcome(Err(step.result.error), step.trace)
    ensures var step := ProcessLineItem(rows[0], headersMap, createInventory, erp, history);
      !IsBlankRow(rows[0]) && step.result.Ok? ==>
        ProcessRows(rows, headersMap, createInventory, erp, history)
          == Prepend([step.result.value], ProcessRows(rows[1..], headersMap, createInventory, erp, step.trace))
  {
  }

  /**
   * `create_payload` on rows already read from the file. A file without a header row fails;
   * a missing required header fails before any row is looked at and before the ERP is
   * contacted; otherwise the outcome is the row loop's.
   */
  function BuildPayload(rows: seq<seq<string>>, required: seq<string>, createInventory: bool, erp: Erp): (o: Outcome<OrderPayload>)
    ensures rows == [] ==> o == Outcome(Err(EmptyFile), [])
    ensures rows != [] && (exists h :: h in required && h !in HeaderMap(rows[0])) ==> o.result.Err? && o.result.error.MissingColumn?
    ensures o.result.Err? && o.result.error.MissingColumn? ==>
      && o.trace == []
      && o.result.error.header in required
      && o.result.error.header !in HeaderMap(rows[0])
  {
    if rows == [] then Outcome(Err(EmptyFile), [])
    else
      var headersMap := HeaderMap(rows[0]);
      var i := FirstMissing(required, headersMap);
      if i < |required| then Outcome(Err(MissingColumn(required[i])), [])
      else
        var o := ProcessRows(rows[1..], headersMap, createInventory, erp, []);
        Outcome(if o.result.Ok? then Ok(OrderPayload(o.result.value)) else Err(o.result.error), o.trace)
  }

  /**
   * `create_payload` itself: build the header map column by column, check each required
   * header, then walk the data rows, appending one item per kept row. It computes exactly
   * `BuildPayload`.
   */
  method CreatePayload(rows: seq<seq<string>>, required: seq<string>, createInventory: bool, erp: Erp)
    returns (o: Outcome<OrderPayload>)
    ensures o == BuildPayload(rows, required, createInventory, erp)
  {
    if rows == [] {
      return Outcome(Err(EmptyFile), []);
    }
    var headersMap := MapHeaders(rows[0]);
    var missing := CheckRequired(required, headersMap);
    if missing.Some? {
      return Outcome(Err(MissingColumn(missing.value)), []);
    }
    var loop := AppendItems(rows[1..], headersMap, createInventory, erp);
    o := Outcome(if loop.result.Ok? then Ok(OrderPayload(loop.result.value)) else Err(loop.result.error), loop.trace);
  }

  /** The header-map comprehension, one column at a time. */
  method MapHeaders(headers: seq<string>) returns (headersMap: map<string, nat>)
    ensures headersMap == HeaderMap(headers)
  {
    headersMap := map[];
    for i := 0 to |headers|
      invariant headersMap == HeaderMap(headers[..i])
    {
      assert headers[..i + 1][..i] == headers[..i];
      headersMap := headersMap[Upper(headers[i]) := i];
    }
    assert headers[..|headers|] == headers;
  }

  /** The required-header check: the first header missing from the map, if any. */
  method CheckRequired(required: seq<string>, headersMap: map<string, nat>) returns (missing: Option<string>)
    ensures missing.None? <==> FirstMissing(required, headersMap) == |required|
    ensures missing.Some? ==> missing.value == required[FirstMissing(required, headersMap)]
  {
    for j := 0 to |required|
      invariant forall k :: 0 <= k < j ==> required[k] in headersMap
    {
      if required[j] !in headersMap {
        FirstMissingIs(required, headersMap, j);
        return Some(required[j]);
      }
    }
    FirstMissingIs(required, headersMap, |required|);
    return None;
  }

  /** The first missing header is the one every earlier header is present before. */
  lemma FirstMissingIs(required: seq<string>, headersMap: map<string, nat>, j: nat)
    requires j <= |required| && forall k :: 0 <= k < j ==> required[k] in headersMap
    requires j < |required| ==> required[j] !in headersMap
    ensures FirstMissing(required, headersMap) == j
  {
  }

  /** The row loop: skip blank rows, append one item per kept row, stop at the first error. */
  method AppendItems(rows: seq<seq<string>>, headersMap: map<string, nat>, createInventory: bool, erp: Erp)
    returns (o: Outcome<seq<LineItem>>)
    ensures o == ProcessRows(rows, headersMap, createInventory, erp, [])
  {
    var items: seq<LineItem> := [];
    var trace: seq<Effect> := [];
    var rest := rows;
    PrependNothing(ProcessRows(rows, headersMap, createInventory, erp, []));
    while rest != []
      invariant ProcessRows(rows, headersMap, createInventory, erp, [])
        == Prepend(items, ProcessRows(rest, headersMap, createInventory, erp, trace))
      decreases |rest|
    {
      var line := rest[0];
      AppendStep(rest, headersMap, createInventory, erp, trace, items);
      if !IsBlankRow(line) {
        var step := ProcessLineItem(line, headersMap, createInventory, erp, trace);
        if step.result.Err? {
          return Outcome(Err(step.result.error), step.trace);
        }
        items := items + [step.result.value];
        trace := step.trace;
      }
      rest := rest[1..];
    }
    assert items + [] == items;
    return Outcome(Ok(items), trace);
  }

  /** What one pass of the row loop does to the items gathered so far. */
  lemma AppendStep(
    rows: seq<seq<string>>, headersMap: map<string, nat>, createInventory: bool, erp: Erp, history: seq<Effect>,
    items: seq<LineItem>)
    requires rows != []
    ensures IsBlankRow(rows[0]) ==>
      Prepend(items, ProcessRows(rows, headersMap, createInventory, erp, history))
        == Prepend(items, ProcessRows(rows[1..], headersMap, createInventory, erp, history))
    ensures var step := ProcessLineItem(rows[0], headersMap, createInventory, erp, history);
      !IsBlankRow(rows[0]) && step.result.Err? ==>
        Prepend(items, ProcessRows(rows, headersMap, createInventory, erp, history)) == Outcome(Err(step.result.error), step.trace)
    ensures var step := ProcessLineItem(rows[0], headersMap, createInventory, erp, history);
      !IsBlankRow(rows[0]) && step.result.Ok? ==>
        Prepend(items, ProcessRows(rows, headersMap, createInventory, erp, history))
          == Prepend(items + [step.result.value], ProcessRows(rows[1..], headersMap, createInventory, erp, step.trace))
  {
    ProcessRowsStep(rows, headersMap, createInventory, erp, history);
    var step := ProcessLineItem(rows[0], headersMap, createInventory, erp, history);
    if !IsBlankRow(rows[0]) && step.result.Ok? {
      PrependTwice(items, [step.result.value], ProcessRows(rows[1..], headersMap, createInventory, erp, step.trace));
    }
  }

  // ---------------------------------------------------------------------------------------------
  // What the row loop promises

  /** The items are, position by position, the successful results: the first result's item first, and so on. */
  predicate ItemsOf(items: seq<LineItem>, results: seq<Result<LineItem, Error>>) {
    |items| == |results| && forall k :: 0 <= k < |results| ==> results[k] == Ok(items[k])
  }

  lemma ItemsOfCons(item: LineItem, items: seq<LineItem>, results: seq<Result<LineItem, Error>>)
    requires ItemsOf(items, results)
    ensures ItemsOf([item] + items, [Ok(item)] + results)
  {
    forall k | 0 < k < |results| + 1
      ensures ([Ok(item)] + results)[k] == Ok(([item] + items)[k])
    {
      assert ([Ok(item)] + results)[k] == results[k - 1] && ([item] + items)[k] == items[k - 1];
    }
  }

  lemma KeptStep(rows: seq<seq<string>>)
    requires rows != []
    ensures Kept(rows) == if IsBlankRow(rows[0]) then Kept(rows[1..]) else [rows[0]] + Kept(rows[1..])
  {
  }

  /** Every kept row contributes exactly its own item, and the items keep the rows' order. */
  lemma {:induction false} ItemsFollowKeptRows(
    rows: seq<seq<string>>, headersMap: map<string, nat>, createInventory: bool, erp: Erp, history: seq<Effect>)
    ensures var o := ProcessRows(rows, headersMap, createInventory, erp, history);
      o.result.Ok? ==> ItemsOf(o.result.value, RowItems(Kept(rows), headersMap))
  {
    if rows != [] {
      KeptStep(rows);
      if IsBlankRow(rows[0]) {
        ItemsFollowKeptRows(rows[1..], headersMap, createInventory, erp, history);
      } else {
        var step := ProcessLineItem(rows[0], headersMap, createInventory, erp, history);
        if step.result.Ok? {
          var rest := ProcessRows(rows[1..], headersMap, createInventory, erp, step.trace);
          ItemsFollowKeptRows(rows[1..], headersMap, createInventory, erp, step.trace);
          if rest.result.Ok? {
            ProcessLineItemMeaning(rows[0], headersMap, createInventory, erp, history);
            RowItemsCons(rows[0], Kept(rows[1..]), headersMap);
            ItemsOfCons(step.result.value, rest.result.value, RowItems(Kept(rows[1..]), headersMap));
          }
        }
      }
    }
  }

  /** One kept row that cannot be read makes the whole loop fail: no partial list of items. */
  lemma FailingRowAborts(
    rows: seq<seq<string>>, headersMap: map<string, nat>, createInventory: bool, erp: Erp, history: seq<Effect>, k: nat)
    requires k < |Kept(rows)| && RowItem(Kept(rows)[k], headersMap).Err?
    ensures ProcessRows(rows, headersMap, createInventory, erp, history).result.Err?
  {
    SucceedingLoopReadsEveryRow(rows, headersMap, createInventory, erp, history, k);
  }

  lemma SucceedingLoopReadsEveryRow(
    rows: seq<seq<string>>, headersMap: map<string, nat>, createInventory: bool, erp: Erp, history: seq<Effect>, k: nat)
    requires k < |Kept(rows)|
    ensures ProcessRows(rows, headersMap, createInventory, erp, history).result.Ok? ==> RowItem(Kept(rows)[k], headersMap).Ok?
  {
    ItemsFollowKeptRows(rows, headersMap, createInventory, erp, history);
    var o := ProcessRows(rows, headersMap, createInventory, erp, history);
    if o.result.Ok? {
      assert RowItems(Kept(rows), headersMap)[k] == Ok(o.result.value[k]);
    }
  }

  /** The first error among the results, or all their items. */
  function Collect(results: seq<Result<LineItem, Error>>): Result<seq<LineItem>, Error> {
    if results == [] then Ok([])
    else if results[0].Err? then Err(results[0].error)
    else
      var rest := Collect(results[1..]);
      if rest.Ok? then Ok([results[0].value] + rest.value) else rest
  }

  function RowItems(rows: seq<seq<string>>, headersMap: map<string, nat>): (r: seq<Result<LineItem, Error>>)
    ensures |r| == |rows| && forall k :: 0 <= k < |rows| ==> r[k] == RowItem(rows[k], headersMap)
  {
    seq(|rows|, k requires 0 <= k < |rows| => RowItem(rows[k], headersMap))
  }

  /**
   * Without the inventory flag the ERP is never contacted and nothing is printed, and the loop's
   * result is the first failing kept row's error, or else the items of all kept rows.
   */
  lemma {:induction false} WithoutInventoryNoEffects(
    rows: seq<seq<string>>, headersMap: map<string, nat>, erp: Erp, history: seq<Effect>)
    ensures ProcessRows(rows, headersMap, false, erp, history) == Outcome(Collect(RowItems(Kept(rows), headersMap)), history)
  {
    if rows != [] {
      KeptStep(rows);
      WithoutInventoryNoEffects(rows[1..], headersMap, erp, history);
      if !IsBlankRow(rows[0]) {
        RowItemsCons(rows[0], Kept(rows[1..]), headersMap);
      }
    }
  }

  lemma RowItemsCons(row: seq<string>, rows: seq<seq<string>>, headersMap: map<string, nat>)
    ensures RowItems([row] + rows, headersMap) == [RowItem(row, headersMap)] + RowItems(rows, headersMap)
  {
  }

  /**
   * Reading the cell of a column by its name: when `key` is the upper-cased header of column `j`
   * and of no later column, the row's cell in column `j` is read, and a row too short for it
   * fails naming `j`.
   */
  lemma CellUnderHeader(headers: seq<string>, row: seq<string>, key: string, j: nat)
    requires j < |headers| && Upper(headers[j]) == key
    requires forall j' :: j < j' < |headers| ==> Upper(headers[j']) != key
    ensures Cell(row, HeaderMap(headers), key) == if j < |row| then Ok(row[j]) else Err(IndexOutOfRange(j))
  {
    HeaderMapKeys(headers);
    HeaderMapLastWins(headers);
    var m := HeaderMap(headers);
    assert key in m;
    assert m[key] == j by {
      assert Upper(headers[m[key]]) == key;
    }
  }

  /** A name that no header upper-cases to is not a column: reading it fails naming the key. */
  lemma CellWithoutHeader(headers: seq<string>, row: seq<string>, key: string)
    requires forall j :: 0 <= j < |headers| ==> Upper(headers[j]) != key
    ensures Cell(row, HeaderMap(headers), key) == Err(MissingKey(key))
  {
    HeaderMapKeys(headers);
  }

  /** Upper-casing makes header matching blind to case: headers equal up to case give the same map. */
  lemma {:induction false} HeaderMapIgnoresCase(a: seq<string>, b: seq<string>)
    requires |a| == |b| && forall i :: 0 <= i < |a| ==> Upper(a[i]) == Upper(b[i])
    ensures HeaderMap(a) == HeaderMap(b)
  {
    if a != [] {
      HeaderMapIgnoresCase(a[..|a| - 1], b[..|b| - 1]);
    }
  }

  // ---------------------------------------------------------------------------------------------
  // Scenarios
  //
  // Several examples take their strings as parameters pinned by `requires x == "..."` rather
  // than writing the literals in the `ensures`: the verifier then does not evaluate every
  // function on the literals eagerly, which keeps these proofs small.

  /** A header with a space in front is not the required header: matching ignores case, not whitespace. */
  lemma PaddedHeaderExample(createInventory: bool, erp: Erp)
    ensures BuildPayload([[" PART NO", "ORDER QTY"]], RequiredHeaders, createInventory, erp)
      == Outcome(Err(MissingColumn(PartNoKey)), [])
  {
    var headers := [" PART NO", "ORDER QTY"];
    HeaderMapKeys(headers);
    assert PartNoKey !in HeaderMap(headers);
  }

  /** Lower-case headers are found, and a file with no data rows gives an empty item list. */
  lemma LowerCaseHeaderExample(createInventory: bool, erp: Erp)
    ensures BuildPayload([["part no", "order qty"]], RequiredHeaders, createInventory, erp)
      == Outcome(Ok(OrderPayload([])), [])
  {
    var headers := ["part no", "order qty"];
    HeaderMapKeys(headers);
    assert Upper(headers[0]) == PartNoKey && Upper(headers[1]) == QtyKey;
  }

  /** A row of empty cells is skipped; a row with a cell holding only a space is not, and fails here. */
  lemma BlankRowExamples(erp: Erp)
    ensures var headersMap := map[PartNoKey := 0, QtyKey := 1];
      && ProcessRows([["", ""]], headersMap, false, erp, []) == Outcome(Ok([]), [])
      && ProcessRows([["", " "]], headersMap, false, erp, []) == Outcome(Err(BadValues("", InvalidQuantity(""))), [])
  {
    var headersMap := map[PartNoKey := 0, QtyKey := 1];
    assert IsBlankRow(["", ""]);
    assert !IsBlankRow(["", " "]) by { assert ["", " "][1] != ""; }
    BlankQuantityFails(["", " "], headersMap);
  }

  /**
   * A whole file end to end: headers in any order, one row with a price in currency notation.
   * Exactly one item comes out, carrying every field, and without the inventory flag nothing is
   * sent to the ERP.
   */
  lemma OneRowExample(file: seq<seq<string>>, erp: Erp)
    requires file == [["PART NO", "ORDER QTY", "DESCRIPTION", "UNIT PRICE"], ["ABC123", "5", "Bolt", "$1.50"]]
    ensures BuildPayload(file, RequiredHeaders, false, erp)
      == Outcome(Ok(OrderPayload([LineItem(Warehouse, "ABC123", Decimal(5, 0), Some(Decimal(150, 2)), Some("Bolt"))])), [])
  {
    ExampleFile(file);
    SingleRowPayload(file[0], file[1], RequiredHeaders, erp);
  }

  /** The example file: a header row naming every recognised column, and one readable row. */
  lemma ExampleFile(file: seq<seq<string>>)
    requires file == [["PART NO", "ORDER QTY", "DESCRIPTION", "UNIT PRICE"], ["ABC123", "5", "Bolt", "$1.50"]]
    ensures file == [file[0], file[1]]
    ensures FirstMissing(RequiredHeaders, HeaderMap(file[0])) == |RequiredHeaders|
    ensures !IsBlankRow(file[1])
    ensures RowItem(file[1], HeaderMap(file[0]))
      == Ok(LineItem(Warehouse, "ABC123", Decimal(5, 0), Some(Decimal(150, 2)), Some("Bolt")))
  {
    var headersMap := map[PartNoKey := 0, QtyKey := 1, DescriptionKey := 2, PriceKey := 3];
    ExampleHeaderMap(file[0]);
    ExampleRowItem(file[1], headersMap);
    assert file[1][0] != "";
  }

  /** A file of a header row that has every required header and one row that reads well yields that row's item. */
  lemma SingleRowPayload(headers: seq<string>, row: seq<string>, required: seq<string>, erp: Erp)
    requires FirstMissing(required, HeaderMap(headers)) == |required|
    requires !IsBlankRow(row) && RowItem(row, HeaderMap(headers)).Ok?
    ensures BuildPayload([headers, row], required, false, erp)
      == Outcome(Ok(OrderPayload([RowItem(row, HeaderMap(headers)).value])), [])
  {
    SingleRowLoop(row, HeaderMap(headers), erp);
    assert [headers, row][1..] == [row];
  }

  lemma SingleRowLoop(row: seq<string>, headersMap: map<string, nat>, erp: Erp)
    requires !IsBlankRow(row) && RowItem(row, headersMap).Ok?
    ensures ProcessRows([row], headersMap, false, erp, []) == Outcome(Ok([RowItem(row, headersMap).value]), [])
  {
    var item := RowItem(row, headersMap).value;
    WithoutInventoryNoEffects([row], headersMap, erp, []);
    KeptStep([row]);
    assert [row][1..] == [] && Kept([row]) == [row];
    var results := RowItems([row], headersMap);
    assert results == [Ok(item)];
    assert results[1..] == [] && [item] + [] == [item];
  }

  lemma ExampleHeaderMap(headers: seq<string>)
    requires headers == ["PART NO", "ORDER QTY", "DESCRIPTION", "UNIT PRICE"]
    ensures HeaderMap(headers) == map[PartNoKey := 0, QtyKey := 1, DescriptionKey := 2, PriceKey := 3]
    ensures FirstMissing(RequiredHeaders, HeaderMap(headers)) == |RequiredHeaders|
  {
    UpperExample(PartNoKey);
    UpperExample(QtyKey);
    UpperExample(DescriptionKey);
    UpperExample(PriceKey);
    assert headers[..0] == [] && headers[..1][..0] == [];
    assert HeaderMap(headers[..1]) == map[PartNoKey := 0];
    assert headers[..2][..1] == headers[..1];
    assert HeaderMap(headers[..2]) == map[PartNoKey := 0, QtyKey := 1];
    assert headers[..3][..2] == headers[..2];
    assert HeaderMap(headers[..3]) == map[PartNoKey := 0, QtyKey := 1, DescriptionKey := 2];
    assert headers[..4] == headers && headers[..3] == headers[..|headers| - 1];
    KeysDistinct();
    assert RequiredHeaders[1..][1..] == [];
  }

  /** The four recognised header names are different strings. */
  lemma KeysDistinct()
    ensures PartNoKey != QtyKey && PartNoKey != DescriptionKey && PartNoKey != PriceKey
    ensures QtyKey != DescriptionKey && QtyKey != PriceKey && DescriptionKey != PriceKey
  {
    assert |PartNoKey| == 7 && |QtyKey| == 9 && |DescriptionKey| == 11 && |PriceKey| == 10;
  }

  /** The recognised header names are already upper case. */
  lemma UpperExample(key: string)
    requires key in [PartNoKey, QtyKey, DescriptionKey, PriceKey]
    ensures Upper(key) == key
  {
  }

  lemma ExampleRowItem(row: seq<string>, headersMap: map<string, nat>)
    requires row == ["ABC123", "5", "Bolt", "$1.50"]
    requires headersMap == map[PartNoKey := 0, QtyKey := 1, DescriptionKey := 2, PriceKey := 3]
    ensures RowItem(row, headersMap) == Ok(LineItem(Warehouse, "ABC123", Decimal(5, 0), Some(Decimal(150, 2)), Some("Bolt")))
  {
    ExampleCells(row, headersMap);
    FullRowItem(row, headersMap, "ABC123", Decimal(5, 0), Decimal(150, 2), "Bolt");
  }

  /** The example row's cells, trimmed and cleaned. */
  lemma ExampleCells(row: seq<string>, headersMap: map<string, nat>)
    requires row == ["ABC123", "5", "Bolt", "$1.50"]
    requires headersMap == map[PartNoKey := 0, QtyKey := 1, DescriptionKey := 2, PriceKey := 3]
    ensures Readable(row, headersMap) && PriceKey in headersMap && DescriptionKey in headersMap
    ensures Strip(row[headersMap[PartNoKey]]) == "ABC123"
    ensures CleanNumeric(Strip(row[headersMap[QtyKey]])) == Some(Decimal(5, 0))
    ensures CleanNumeric(Strip(row[headersMap[PriceKey]])) == Some(Decimal(150, 2))
    ensures Strip(row[headersMap[DescriptionKey]]) == "Bolt"
  {
    KeysDistinct();
    assert headersMap[PartNoKey] == 0 && headersMap[QtyKey] == 1;
    assert headersMap[DescriptionKey] == 2 && headersMap[PriceKey] == 3;
    ExampleCellsUnpadded(row[0], row[1], row[2], row[3]);
    NumeralRoundTrip(5);
    assert Numeral(5) == "5";
    PriceExample();
  }

  lemma ExampleCellsUnpadded(part: string, qty: string, description: string, price: string)
    requires part == "ABC123" && qty == "5" && description == "Bolt" && price == "$1.50"
    ensures Strip(part) == part && Strip(qty) == qty && Strip(description) == description && Strip(price) == price
  {
    Unpadded(part);
    Unpadded(qty);
    Unpadded(description);
    Unpadded(price);
  }

  /** A cell with no whitespace at its ends is its own trimmed value. */
  lemma Unpadded(cell: string)
    requires cell != [] && !IsSpace(cell[0]) && !IsSpace(cell[|cell| - 1])
    ensures Strip(cell) == cell
  {
    StripUnpads("", cell, "");
    assert "" + cell + "" == cell;
  }
}
