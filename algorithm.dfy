/**
 * The greedy adjacency-search packer, over the sheet's lists of stock objects, proved to
 * compute what PackingModel.CuttingStock says.
 */
module Algorithm {
  import opened Stocks
  import opened Sheets
  import opened PackingModel

  /**
   * The search for one stock: walks the packed stocks in list order, trying right of each and
   * above it, then turning the stock in place and trying both again. The turns are not undone.
   */
  method FindPoint(sheet: Sheet, stock: Stock, validate: Validator) returns (found: Option<Point>)
    requires stock !in sheet.packed
    modifies stock
    ensures var r := Search(sheet.PackedRects(), old(stock.width), old(stock.height), validate);
            found == r.point && stock.width == r.width && stock.height == r.height
    ensures stock.x == old(stock.x) && stock.y == old(stock.y)
  {
    ghost var packed := sheet.PackedRects();
    ghost var goal := Search(packed, stock.width, stock.height, validate);
    var i := 0;
    while i < |sheet.packed|
      invariant 0 <= i <= |sheet.packed|
      invariant sheet.PackedRects() == packed
      invariant stock.x == old(stock.x) && stock.y == old(stock.y)
      invariant SearchFrom(packed, i, stock.width, stock.height, validate) == goal
    {
      var p := sheet.packed[i];
      assert packed[i] == p.AsRect();
      if validate(sheet.PackedRects(), stock.width, stock.height, (p.x + p.width, p.y)) {
        return Some((p.x + p.width, p.y));
      }
      if validate(sheet.PackedRects(), stock.width, stock.height, (p.x, p.y + p.height)) {
        return Some((p.x, p.y + p.height));
      }
      stock.Rotate();
      if validate(sheet.PackedRects(), stock.width, stock.height, (p.x + p.width, p.y)) {
        return Some((p.x + p.width, p.y));
      }
      if validate(sheet.PackedRects(), stock.width, stock.height, (p.x, p.y + p.height)) {
        return Some((p.x, p.y + p.height));
      }
      i := i + 1;
    }
    found := None;
  }

  /** The search for the stock at the front of the queue: only that stock's sides change. */
  method SearchFront(sheet: Sheet, validate: Validator) returns (found: Option<Point>)
    requires sheet.Valid() && |sheet.unpacked| > 0
    modifies sheet.unpacked[0]
    ensures var packed, unpacked := old(sheet.PackedRects()), old(sheet.UnpackedRects());
            var r := Search(packed, unpacked[0].width, unpacked[0].height, validate);
            found == r.point && sheet.PackedRects() == packed
            && sheet.UnpackedRects() == [unpacked[0].(width := r.width, height := r.height)] + unpacked[1..]
  {
    var stock := sheet.unpacked[0];
    ghost var unpacked := sheet.UnpackedRects();
    ghost var rest := Rects(sheet.unpacked[1..]);
    FrontOccursOnce(sheet.packed, sheet.unpacked);
    assert unpacked[1..] == rest;
    found := FindPoint(sheet, stock, validate);
    assert Rects(sheet.unpacked[1..]) == rest;
    assert sheet.UnpackedRects() == [stock.AsRect()] + rest;
  }

  /**
   * One turn of the main loop: the search for the front stock, then either packing it where
   * the search found room, or leaving it at the front of the queue, turned as the search left it.
   */
  method PackFront(sheet: Sheet, validate: Validator) returns (placed: bool)
    requires sheet.Valid() && |sheet.unpacked| > 0
    modifies sheet, sheet.unpacked[0]
    ensures sheet.Valid()
    ensures sheet.packed == if placed then old(sheet.packed) + [old(sheet.unpacked)[0]] else old(sheet.packed)
    ensures sheet.unpacked == if placed then old(sheet.unpacked)[1..] else old(sheet.unpacked)
    ensures var packed, unpacked := old(sheet.PackedRects()), old(sheet.UnpackedRects());
            var r := Search(packed, unpacked[0].width, unpacked[0].height, validate);
            placed == r.point.Some?
            && (placed ==> sheet.PackedRects() == packed + [Settled(unpacked[0], r)] && sheet.UnpackedRects() == unpacked[1..])
            && (!placed ==> sheet.PackedRects() == packed && sheet.UnpackedRects() == [Settled(unpacked[0], r)] + unpacked[1..])
  {
    var found := SearchFront(sheet, validate);
    if found.None? {
      return false;
    }
    assert sheet.UnpackedRects()[0] == sheet.unpacked[0].AsRect();
    sheet.Pack(sheet.unpacked[0], found.value);
    placed := true;
  }

  /**
   * The packer: the initial step (whether it packs the front stock at the origin is given as
   * `packsFirst`), then, while stocks wait, the search for the front one; it packs the stock
   * where the search found room, or answers false at once.
   */
  method CuttingStockProblem(sheet: Sheet, validate: Validator, packsFirst: bool) returns (ok: bool)
    requires sheet.Valid()
    modifies sheet, sheet.unpacked
    ensures sheet.Valid()
    ensures sheet.packed + sheet.unpacked == old(sheet.packed + sheet.unpacked)
    ensures var out := CuttingStock(old(sheet.PackedRects()), old(sheet.UnpackedRects()), validate, packsFirst);
            ok == out.ok && sheet.PackedRects() == out.packed && sheet.UnpackedRects() == out.unpacked
  {
    ghost var all := sheet.packed + sheet.unpacked;
    ghost var queue := sheet.unpacked;
    ghost var n := 0;
    if packsFirst && |sheet.unpacked| > 0 {
      sheet.Pack(sheet.unpacked[0], (0, 0));
      n := 1;
    }
    ghost var goal := CuttingStock(old(sheet.PackedRects()), old(sheet.UnpackedRects()), validate, packsFirst);
    while |sheet.unpacked| > 0
      invariant sheet.Valid()
      invariant sheet.packed + sheet.unpacked == all
      invariant n <= |queue| && sheet.unpacked == queue[n..]
      invariant Run(sheet.PackedRects(), sheet.UnpackedRects(), validate) == goal
      decreases |sheet.unpacked|
    {
      MoveFront(sheet.packed, sheet.unpacked);
      var placed := PackFront(sheet, validate);
      if !placed {
        return false;
      }
      n := n + 1;
    }
    return true;
  }
}
