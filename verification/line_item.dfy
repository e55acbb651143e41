/**
 * `process_line_item`: one CSV row becomes one purchase-order line item, after the ERP has
 * optionally been asked whether the part exists and asked to create it.
 */
module LineItems {
  import opened Wrappers
  import opened Text
  import opened Numeric

  const PartNoKey := "PART NO"
  const QtyKey := "ORDER QTY"
  const PriceKey := "UNIT PRICE"
  const DescriptionKey := "DESCRIPTION"

  /** The only warehouse items are ordered into. */
  const Warehouse := "00"

  /** Why reading a row's values failed. */
  datatype Cause =
    | MissingKey(key: string)          // the header map has no such column (a KeyError)
    | IndexOutOfRange(index: nat)      // the row is shorter than the column's index (an IndexError)
    | InvalidQuantity(rawQty: string)  // the trimmed quantity cleans to nothing

  /** Every way building the payload can fail. */
  datatype Error =
    | EmptyFile                                // the file has no header row
    | MissingColumn(header: string)            // "Missing <header> column"
    | PartNoUnbound(cause: Cause)              // the part number cell itself could not be read
    | BadValues(partNo: string, cause: Cause)  // "Error geting values for <partNo>"
    | CreationFailed(partNo: string)           // "Error creating <partNo>"

  /** What the transformer does outside itself, in order: requests to the ERP and printed warnings. */
  datatype Effect =
    | QueryExists(partNo: string)
    | RequestCreate(partNo: string, description: string, cost: Decimal)
    | WarnNoDescription(partNo: string)

  /**
   * How a call of `create_inventory_item` ends: the item was created, the ERP answered with a
   * status other than 201 (the function then returns `None`), or the call raised an exception.
   */
  datatype CreateOutcome = Created | Rejected | Raised

  /**
   * The ERP as the transformer sees it: `item_exists` and `create_inventory_item`. Each answer
   * may depend on everything sent before it, so an ERP whose inventory grows as items are
   * created is one of the ERPs this stands for.
   */
  datatype Erp = Erp(
    itemExists: (seq<Effect>, string) -> bool,
    createItem: (seq<Effect>, string, string, Decimal) -> CreateOutcome)

  /** One entry of the payload's `items`; a `None` field is a key the dictionary does not have. */
  datatype LineItem = LineItem(
    whse: string, partNo: string, orderQty: Decimal, unitPrice: Option<Decimal>, description: Option<string>)

  /** A result together with everything sent to the ERP or printed up to then. */
  datatype Outcome<T> = Outcome(result: Result<T, Error>, trace: seq<Effect>)

  /** The values read from a row before the inventory step. */
  datatype Fields = Fields(
    partNo: string, rawQty: string, orderQty: Decimal, unitPrice: Option<Decimal>, description: string)

  predicate Requested(effects: seq<Effect>) {
    exists i :: 0 <= i < |effects| && effects[i].RequestCreate?
  }

  predicate Warned(effects: seq<Effect>) {
    exists i :: 0 <= i < |effects| && effects[i].WarnNoDescription?
  }

  /** `row[headers_map[key]]`, which fails when the key is unknown or the row too short. */
  function Cell(row: seq<string>, headersMap: map<string, nat>, key: string): Result<string, Cause> {
    if key !in headersMap then Err(MissingKey(key))
    else if headersMap[key] >= |row| then Err(IndexOutOfRange(headersMap[key]))
    else Ok(row[headersMap[key]])
  }

  /** An optional column: absent from the header map is no error, but a row too short for it is. */
  function OptionalCell(row: seq<string>, headersMap: map<string, nat>, key: string): Result<Option<string>, Cause> {
    if key !in headersMap then Ok(None)
    else if headersMap[key] >= |row| then Err(IndexOutOfRange(headersMap[key]))
    else Ok(Some(row[headersMap[key]]))
  }

  /** Every cell the row processor reads is there. */
  predicate Readable(row: seq<string>, headersMap: map<string, nat>) {
    && PartNoKey in headersMap && headersMap[PartNoKey] < |row|
    && QtyKey in headersMap && headersMap[QtyKey] < |row|
    && (PriceKey in headersMap ==> headersMap[PriceKey] < |row|)
    && (DescriptionKey in headersMap ==> headersMap[DescriptionKey] < |row|)
  }

  /**
   * The guarded block that reads a row: the trimmed part number, quantity, price and
   * description, the quantity and price cleaned. The first failure wins; when the part number
   * cell itself cannot be read there is no part number to report.
   */
  function ReadFields(row: seq<string>, headersMap: map<string, nat>): Result<Fields, Error> {
    match Cell(row, headersMap, PartNoKey)
    case Err(cause) => Err(PartNoUnbound(cause))
    case Ok(partCell) =>
      var partNo := Strip(partCell);
      match Cell(row, headersMap, QtyKey)
      case Err(cause) => Err(BadValues(partNo, cause))
      case Ok(qtyCell) =>
        var rawQty := Strip(qtyCell);
        match OptionalCell(row, headersMap, PriceKey)
        case Err(cause) => Err(BadValues(partNo, cause))
        case Ok(priceCell) =>
          match OptionalCell(row, headersMap, DescriptionKey)
          case Err(cause) => Err(BadValues(partNo, cause))
          case Ok(descriptionCell) =>
            var rawPrice := if priceCell.Some? then Strip(priceCell.value) else "";
            var description := if descriptionCell.Some? then Strip(descriptionCell.value) else "";
            var orderQty := CleanNumeric(rawQty);
            var unitPrice := if rawPrice != "" then CleanNumeric(rawPrice) else None;
            if orderQty.None? then Err(BadValues(partNo, InvalidQuantity(rawQty)))
            else Ok(Fields(partNo, rawQty, orderQty.value, unitPrice, description))
  }

  /** The item dictionary: `unitPrice` only for a non-zero price, `description` only when non-empty. */
  function BuildItem(f: Fields): LineItem {
    LineItem(
      Warehouse, f.partNo, f.orderQty,
      if f.unitPrice.Some? && !IsZero(f.unitPrice.value) then f.unitPrice else None,
      if f.description != "" then Some(f.description) else None)
  }

  /** The item a row yields, or why it yields none, whatever the ERP does. */
  function RowItem(row: seq<string>, headersMap: map<string, nat>): Result<LineItem, Error> {
    match ReadFields(row, headersMap)
    case Err(e) => Err(e)
    case Ok(f) => Ok(BuildItem(f))
  }

  /**
   * An optional column reads like a required one, except that a key missing from the header map
   * is no error and gives no cell.
   */
  lemma OptionalCellMeaning(row: seq<string>, headersMap: map<string, nat>, key: string)
    ensures Cell(row, headersMap, key).Ok? ==>
      OptionalCell(row, headersMap, key) == Ok(Some(Cell(row, headersMap, key).value))
    ensures Cell(row, headersMap, key).Err? ==>
      OptionalCell(row, headersMap, key) ==
        if key in headersMap then Err(Cell(row, headersMap, key).error) else Ok(None)
  {
  }

  /**
   * The item always carries the warehouse, the part number and the quantity; the price only when
   * there is one and it is not zero (Python's truth test), the description only when it is not empty.
   */
  lemma BuildItemMeaning(f: Fields)
    ensures var item := BuildItem(f);
      && item.whse == Warehouse && item.partNo == f.partNo && item.orderQty == f.orderQty
      && (item.unitPrice.Some? <==> f.unitPrice.Some? && !IsZero(f.unitPrice.value))
      && (item.unitPrice.Some? ==> item.unitPrice == f.unitPrice)
      && (item.description.Some? <==> f.description != "")
      && (item.description.Some? ==> item.description.value == f.description)
  {
  }

  /**
   * What a row yields, cell by cell: the part number and quantity are the trimmed cells and the
   * quantity must clean to a number, else the row fails naming its part number; a price is kept
   * only when it cleans to a non-zero number, a description only when its trimmed cell is
   * non-empty; and when the part number cell cannot be read there is no part number to name.
   */
  lemma RowItemMeaning(row: seq<string>, headersMap: map<string, nat>)
    ensures var r := RowItem(row, headersMap);
      && (r.Err? ==> r.error.PartNoUnbound? || r.error.BadValues?)
      && (!Readable(row, headersMap) ==> r.Err?)
      && (!(PartNoKey in headersMap && headersMap[PartNoKey] < |row|) <==> r.Err? && r.error.PartNoUnbound?)
    ensures var r := RowItem(row, headersMap);
      Readable(row, headersMap) ==>
        var partNo, rawQty := Strip(row[headersMap[PartNoKey]]), Strip(row[headersMap[QtyKey]]);
        && (r.Err? <==> CleanNumeric(rawQty).None?)
        && (r.Err? ==> r.error == BadValues(partNo, InvalidQuantity(rawQty)))
    ensures var r := RowItem(row, headersMap);
      r.Ok? ==>
        var item := r.value;
        && Readable(row, headersMap)
        && item.whse == Warehouse
        && item.partNo == Strip(row[headersMap[PartNoKey]])
        && Some(item.orderQty) == CleanNumeric(Strip(row[headersMap[QtyKey]]))
        && (item.unitPrice.Some? <==>
              PriceKey in headersMap
              && CleanNumeric(Strip(row[headersMap[PriceKey]])).Some?
              && !IsZero(CleanNumeric(Strip(row[headersMap[PriceKey]])).value))
        && (item.unitPrice.Some? ==> item.unitPrice == CleanNumeric(Strip(row[headersMap[PriceKey]])))
        && (item.description.Some? <==> DescriptionKey in headersMap && Strip(row[headersMap[DescriptionKey]]) != "")
        && (item.description.Some? ==> item.description.value == Strip(row[headersMap[DescriptionKey]]))
  {
    if Readable(row, headersMap) {
      ReadableFields(row, headersMap);
    }
  }

  /** When every cell is there, reading fails only on the quantity, and otherwise reads the trimmed cells. */
  lemma ReadableFields(row: seq<string>, headersMap: map<string, nat>)
    requires Readable(row, headersMap)
    ensures var partNo, rawQty := Strip(row[headersMap[PartNoKey]]), Strip(row[headersMap[QtyKey]]);
      var price := if PriceKey in headersMap then Strip(row[headersMap[PriceKey]]) else "";
      var description := if DescriptionKey in headersMap then Strip(row[headersMap[DescriptionKey]]) else "";
      ReadFields(row, headersMap)
        == if CleanNumeric(rawQty).None? then Err(BadValues(partNo, InvalidQuantity(rawQty)))
           else Ok(Fields(partNo, rawQty, CleanNumeric(rawQty).value,
                          if price != "" then CleanNumeric(price) else None, description))
  {
  }

  /**
   * The inventory step. Only with the flag set is the ERP asked whether the part exists. When it
   * does not, creation is requested with the cleaned price as cost if there is a description;
   * without one a warning is printed instead. Without a price the sell price `None/0.55`
   * raises before any request leaves, which is an error; so is a creation call that raises,
   * while a refused creation is ignored.
   */
  function InventoryStep(f: Fields, createInventory: bool, erp: Erp, history: seq<Effect>): (o: Outcome<()>)
    ensures |o.trace| >= |history| && o.trace[..|history|] == history
    ensures !createInventory ==> o == Outcome(Ok(()), history)
    ensures o.result.Err? ==> o.result.error == CreationFailed(f.partNo)
  {
    if !createInventory then Outcome(Ok(()), history)
    else
      var asked := history + [QueryExists(f.partNo)];
      if erp.itemExists(history, f.partNo) then Outcome(Ok(()), asked)
      else if f.description == "" then
        Outcome(Ok(()), asked + [WarnNoDescription(f.partNo)])
      else if f.unitPrice.None? then Outcome(Err(CreationFailed(f.partNo)), asked)
      else
        var cost := f.unitPrice.value;
        var sent := asked + [RequestCreate(f.partNo, f.description, cost)];
        if erp.createItem(asked, f.partNo, f.description, cost) == Raised
        then Outcome(Err(CreationFailed(f.partNo)), sent)
        else Outcome(Ok(()), sent)
  }

  /**
   * What the inventory step sends and prints, case by case: nothing without the flag; otherwise
   * the existence query first, then, for an unknown part, the warning when there is no
   * description, or the creation request carrying the part number, the description and the
   * cleaned price when there is a price, and nothing more.
   */
  lemma InventoryStepEffects(f: Fields, createInventory: bool, erp: Erp, history: seq<Effect>)
    ensures var effects := InventoryStep(f, createInventory, erp, history).trace[|history|..];
      var unknown := createInventory && !erp.itemExists(history, f.partNo);
      && (!createInventory ==> effects == [])
      && (createInventory && !unknown ==> effects == [QueryExists(f.partNo)])
      && (unknown && f.description == "" ==> effects == [QueryExists(f.partNo), WarnNoDescription(f.partNo)])
      && (unknown && f.description != "" && f.unitPrice.None? ==> effects == [QueryExists(f.partNo)])
      && (unknown && f.description != "" && f.unitPrice.Some? ==>
            effects == [QueryExists(f.partNo), RequestCreate(f.partNo, f.description, f.unitPrice.value)])
  {
    var o := InventoryStep(f, createInventory, erp, history);
    if createInventory {
      var asked := history + [QueryExists(f.partNo)];
      assert asked[|history|..] == [QueryExists(f.partNo)];
      if !erp.itemExists(history, f.partNo) && f.description == "" {
        assert (asked + [WarnNoDescription(f.partNo)])[|history|..] == [QueryExists(f.partNo), WarnNoDescription(f.partNo)];
      } else if !erp.itemExists(history, f.partNo) && f.unitPrice.Some? {
        var request := RequestCreate(f.partNo, f.description, f.unitPrice.value);
        assert (asked + [request])[|history|..] == [QueryExists(f.partNo), request];
      }
    } else {
      assert history[|history|..] == [];
    }
  }

  /**
   * Only with the flag set is the ERP asked whether the part exists; creation is requested
   * exactly when it does not exist and there are a description and a price, a warning is
   * printed exactly when it does not exist and there is no description, and the step fails
   * exactly when it would request creation but has no price, or the creation call raises.
   */
  lemma InventoryStepMeaning(f: Fields, createInventory: bool, erp: Erp, history: seq<Effect>)
    ensures var o := InventoryStep(f, createInventory, erp, history);
      var attempted := createInventory && !erp.itemExists(history, f.partNo) && f.description != "";
      && (Requested(o.trace[|history|..]) <==> attempted && f.unitPrice.Some?)
      && (Warned(o.trace[|history|..]) <==>
            createInventory && !erp.itemExists(history, f.partNo) && f.description == "")
      && (o.result.Err? <==>
            attempted
            && (f.unitPrice.None?
                || erp.createItem(history + [QueryExists(f.partNo)], f.partNo, f.description, f.unitPrice.value) == Raised))
  {
    InventoryStepEffects(f, createInventory, erp, history);
    var effects := InventoryStep(f, createInventory, erp, history).trace[|history|..];
    if createInventory && !erp.itemExists(history, f.partNo) && (f.description == "" || f.unitPrice.Some?) {
      assert effects[1].RequestCreate? || effects[1].WarnNoDescription?;
    }
  }

  /**
   * The inventory step as written: the creation call passes four arguments to a function of
   * three parameters, so it raises a TypeError before any request leaves, and every creation
   * attempt is an error.
   */
  function InventoryStepAsWritten(f: Fields, createInventory: bool, erp: Erp, history: seq<Effect>): (o: Outcome<()>)
    ensures |o.trace| >= |history| && o.trace[..|history|] == history
    ensures !Requested(o.trace[|history|..])
    ensures o.result.Err? <==> createInventory && !erp.itemExists(history, f.partNo) && f.description != ""
  {
    if !createInventory then Outcome(Ok(()), history)
    else
      var asked := history + [QueryExists(f.partNo)];
      if erp.itemExists(history, f.partNo) then Outcome(Ok(()), asked)
      else if f.description == "" then Outcome(Ok(()), asked + [WarnNoDescription(f.partNo)])
      else Outcome(Err(CreationFailed(f.partNo)), asked)
  }

  /**
   * `process_line_item`: read the row, run the inventory step, build the item. Whatever
   * happens, the effects of earlier rows stay as they were, and the only errors are the
   * reading errors and a failed creation.
   */
  function ProcessLineItem(
    row: seq<string>, headersMap: map<string, nat>, createInventory: bool, erp: Erp, history: seq<Effect>
  ): (o: Outcome<LineItem>)
    ensures |o.trace| >= |history| && o.trace[..|history|] == history
  {
    match ReadFields(row, headersMap)
    case Err(e) => Outcome(Err(e), history)
    case Ok(f) =>
      var step := InventoryStep(f, createInventory, erp, history);
      Outcome(if step.result.Ok? then Ok(BuildItem(f)) else Err(step.result.error), step.trace)
  }

  /**
   * A row that cannot be read fails before the ERP is contacted; a successful row yields
   * exactly `RowItem`, whatever the ERP answered; without the flag nothing but `RowItem`
   * happens; and a readable row fails only when creating its part fails.
   */
  lemma ProcessLineItemMeaning(
    row: seq<string>, headersMap: map<string, nat>, createInventory: bool, erp: Erp, history: seq<Effect>)
    ensures var o := ProcessLineItem(row, headersMap, createInventory, erp, history);
      && (o.result.Ok? ==> o.result == RowItem(row, headersMap))
      && (RowItem(row, headersMap).Err? ==> o == Outcome(RowItem(row, headersMap), history))
      && (!createInventory ==> o == Outcome(RowItem(row, headersMap), history))
      && (o.result.Err? && RowItem(row, headersMap).Ok? ==>
            o.result.error == CreationFailed(RowItem(row, headersMap).value.partNo))
  {
  }

  // ---------------------------------------------------------------------------------------------
  // Scenarios
  //
  // Several examples take their strings as parameters pinned by `requires x == "..."` rather
  // than writing the literals in the `ensures`: the verifier then does not evaluate every
  // function on the literals eagerly, which keeps these proofs small.

  /**
   * With the flag set and the part unknown to the ERP, a row without a description still
   * yields its item, without a description; a warning is printed and no creation is requested.
   */
  lemma MissingDescriptionOnlyWarns(row: seq<string>, headersMap: map<string, nat>, erp: Erp, history: seq<Effect>)
    requires RowItem(row, headersMap).Ok? && RowItem(row, headersMap).value.description.None?
    requires !erp.itemExists(history, RowItem(row, headersMap).value.partNo)
    ensures var o := ProcessLineItem(row, headersMap, true, erp, history);
      && o.result == RowItem(row, headersMap)
      && Warned(o.trace[|history|..]) && !Requested(o.trace[|history|..])
  {
    var f := ReadFields(row, headersMap).value;
    var step := InventoryStep(f, true, erp, history);
    InventoryStepMeaning(f, true, erp, history);
    assert step.result.Ok?;
  }

  /** A blank or whitespace-only quantity cell fails the row, naming the row's part number. */
  lemma BlankQuantityFails(row: seq<string>, headersMap: map<string, nat>)
    requires Readable(row, headersMap) && AllSpace(row[headersMap[QtyKey]])
    ensures RowItem(row, headersMap) == Err(BadValues(Strip(row[headersMap[PartNoKey]]), InvalidQuantity("")))
  {
    RowItemMeaning(row, headersMap);
    assert Strip(row[headersMap[QtyKey]]) == "";
  }

  /** A row whose every cell is there and meaningful yields an item carrying all five fields. */
  lemma FullRowItem(
    row: seq<string>, headersMap: map<string, nat>, partNo: string, qty: Decimal, price: Decimal, description: string)
    requires Readable(row, headersMap) && PriceKey in headersMap && DescriptionKey in headersMap
    requires Strip(row[headersMap[PartNoKey]]) == partNo
    requires CleanNumeric(Strip(row[headersMap[QtyKey]])) == Some(qty)
    requires CleanNumeric(Strip(row[headersMap[PriceKey]])) == Some(price) && !IsZero(price)
    requires Strip(row[headersMap[DescriptionKey]]) == description && description != ""
    ensures RowItem(row, headersMap) == Ok(LineItem(Warehouse, partNo, qty, Some(price), Some(description)))
  {
    RowItemMeaning(row, headersMap);
  }

  /** Nothing requires a part number: a row with an empty part number cell yields an item all the same. */
  lemma EmptyPartNoExample(row: seq<string>, headersMap: map<string, nat>)
    requires row == ["", "5"] && headersMap == map[PartNoKey := 0, QtyKey := 1]
    ensures RowItem(row, headersMap).Ok? && RowItem(row, headersMap).value.partNo == ""
  {
    assert |PartNoKey| != |QtyKey|;
    assert headersMap[PartNoKey] == 0 && headersMap[QtyKey] == 1;
    assert PriceKey !in headersMap by { assert |PriceKey| != |PartNoKey| && |PriceKey| != |QtyKey|; }
    assert DescriptionKey !in headersMap by { assert |DescriptionKey| != |PartNoKey| && |DescriptionKey| != |QtyKey|; }
    EmptyAndFive(row[0], row[1]);
    ReadableFields(row, headersMap);
  }

  lemma EmptyAndFive(empty: string, five: string)
    requires empty == "" && five == "5"
    ensures Strip(empty) == "" && CleanNumeric(Strip(five)) == Some(Decimal(5, 0))
  {
    StripUnpads("", five, "");
    assert "" + five + "" == five;
    NumeralRoundTrip(5);
    assert Numeral(5) == five;
  }

  /**
   * The extra argument in the creation call, shown on one row: the ERP does not know the
   * part and would create it, yet the step as written fails, while the intended step succeeds
   * after sending the request.
   */
  lemma ExtraArgumentExample()
    ensures var f := Fields("ABC123", "5", Decimal(5, 0), Some(Decimal(15, 1)), "Bolt");
      var erp := Erp((h, p) => false, (h, p, d, c) => Created);
      && InventoryStepAsWritten(f, true, erp, []).result == Err(CreationFailed("ABC123"))
      && InventoryStep(f, true, erp, []).result == Ok(())
      && Requested(InventoryStep(f, true, erp, []).trace)
  {
    var f := Fields("ABC123", "5", Decimal(5, 0), Some(Decimal(15, 1)), "Bolt");
    var erp := Erp((h, p) => false, (h, p, d, c) => Created);
    InventoryStepMeaning(f, true, erp, []);
    assert InventoryStep(f, true, erp, []).trace[0..] == InventoryStep(f, true, erp, []).trace;
  }
}
