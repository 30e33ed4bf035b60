# Greedy adjacency-search cutting-stock packer, modelled in Dafny

This project models two parts of a small rectangle-packing program.

- **The `Stock` object** (`stock.py`). A stock is a rectangle with a width, a height and a
  location (x, y). You can turn it by 90 degrees in place, move it to a point and read its
  location back.
- **The packer `cutting_stock_problem`** (`algorithm.py`). It runs over a sheet that holds two
  lists: waiting stocks (the queue) and packed stocks.
  - While stocks wait, it takes the front one and walks the packed stocks in list order.
  - For each packed stock `p` it asks the sheet whether the front stock fits at the point right
    of `p`, then at the point above `p`.
  - If neither fits, it turns the stock in place and asks about the same two points again.
  - The turns are never undone, so a stock that passes several packed stocks is turned once for
    each of them.
  - The first accepted point is where the stock is packed. If no point is accepted, the packer
    answers false at once.

The model has four files, one module each:

- `stock.dfy`, module `Stocks`:
  - `Rect`, the value of a stock at one moment;
  - the class `Stock`, whose methods update its fields in place.
- `sheet.dfy`, module `Sheets`: the part of the sheet the packer uses. This is the class `Sheet`
  with the two lists as `seq<Stock>` fields, and `Pack`, which moves the front stock to the
  packed list at a point.
- `packing.dfy`, module `PackingModel`: a value-level reference definition of the packer and the
  lemmas about it.
  - `SearchFrom` / `Search` is the search for one stock. `CandidateAt` / `FirstAccepted` is an
    independent statement of the candidate order.
  - `Run` / `CuttingStock` is the whole run.
- `algorithm.dfy`, module `Algorithm`: the packer as the source writes it.
  - It has a `while` loop over the queue and an inner loop over the packed stocks.
  - It turns the stock object in place and mutates the sheet's lists.
  - Each method is proved to compute what the reference definition says. What the source
    promises is proved as lemmas about that definition.

The sheet's placement check `validate_pack_step` is not part of this model. The packer receives
it as a total function `Validator`. The function takes the packed stocks' values, the moving
stock's current width and height, and the point. It answers whether the sheet accepts the stock
there.

The sheet's initial step `packNext((0, 0))` is also not part of this model. The packer receives
whether that step packed the front stock at the origin, as the boolean `packsFirst`.

## Model

| member | source | states |
|---|---|---|
| Stocks.Stock.constructor | stock.py:7-11 | width and height are stored as given; the location defaults to (0, 0) or is the one given |
| Stocks.Stock.Rotate | stock.py:13-17 | the new width is the old height and the new height the old width; x and y are unchanged |
| Stocks.RotatedTwice | stock.py:17 | turning a rectangle twice gives it back |
| Stocks.RotateTwice | stock.py:13-17 | calling `rotate` twice on a stock restores its width, height and location |
| Stocks.Stock.SetLoc | stock.py:26-31 | x and y become the point's two coordinates; width and height are unchanged |
| Stocks.Stock.GetLoc | stock.py:33-37 | returns (x, y) and modifies nothing |
| Stocks.SetThenGet | stock.py:26-37 | after `set_loc(point)`, `get_loc()` returns exactly `point`, and the sides are untouched |
| Sheets.Sheet.Pack | algorithm.py:52 | the front stock gets the point as its location and moves from the queue to the end of the packed list; no stock appears twice; nothing else changes |
| PackingModel.SearchFrom | algorithm.py:19-45 | the search for one stock: an accepted point is accepted by the sheet's check in the sides it is returned with, is right of or above some packed stock, and those sides are the stock's own, perhaps exchanged |
| PackingModel.OrientParity | algorithm.py:33 | turns are never undone, so after n turns the sides are the original ones when n is even and exchanged when n is odd |
| PackingModel.SearchFromFirstAccepted | algorithm.py:19-45 | from packed stock i on, the search returns the first accepted candidate in candidate order, or no point, with one turn for each packed stock passed |
| PackingModel.SearchIsFirstAccepted | algorithm.py:19-45 | packed stocks in list order, and for each one right then above unturned, then right then above after one more turn: the search returns the first accepted candidate in that order; it returns no point exactly when no candidate is accepted, and then the stock has been turned once per packed stock |
| PackingModel.SearchEmpty | algorithm.py:19 | with nothing packed, no candidate is examined: no point and no turn |
| PackingModel.RunOkIffEmpty | algorithm.py:12-54 | the run answers true exactly when the queue ends empty |
| PackingModel.RunKeepsPrefix | algorithm.py:12-52 | stocks only move from the queue to the end of the packed list: the earlier packings stay as they were, and the two lists keep their total length |
| PackingModel.RunPlacesBySearch | algorithm.py:12-52 | the j-th stock the run packs is the j-th queue stock, at the point and in the sides its own search returned against the stocks packed before it |
| PackingModel.RunPlacements | algorithm.py:19-52 | every packed stock was accepted by the sheet's check at its point and in the orientation it was packed in; its point is right of or above a stock packed before it; its sides are its queue stock's, perhaps exchanged |
| PackingModel.RunStopsAt | algorithm.py:47-50 | a false answer stops at the first stock not packed: its search against the final packed list found nothing, it is left at the front as the search left it, and every later stock is untouched |
| PackingModel.RunFailure | algorithm.py:32-50 | on false, no candidate for the failed stock was accepted; it keeps its location, and its sides are its original sides turned once per packed stock; the stocks behind it are unchanged |
| PackingModel.RunEmptySheetFails | algorithm.py:19-50 | with nothing packed, the front stock cannot be placed: the answer is false and nothing moves |
| PackingModel.CuttingStockStart | algorithm.py:9-12 | an empty queue gives true at once; an empty sheet whose initial step packed nothing gives false without moving anything |
| PackingModel.SearchAsWritten | algorithm.py:33 | the search as written raises as soon as the first packed stock rejects both unturned points; when it does not raise, it agrees with the search |
| PackingModel.Rotate90Raises | algorithm.py:33 | a concrete sheet on which the search as written raises, while the search with a real turn packs the stock |
| Algorithm.FindPoint | algorithm.py:16-45 | the imperative inner loop over the packed stocks returns the search's point and leaves the stock object in the search's final orientation; its location is untouched |
| Algorithm.SearchFront | algorithm.py:14-45 | the search for the front stock changes only that stock's sides, as the search says |
| Algorithm.PackFront | algorithm.py:14-52 | one turn of the main loop: the front stock is packed at the search's point in the search's sides, or it is left at the front, turned as the search left it, and the answer is false |
| Algorithm.CuttingStockProblem | algorithm.py:4-54 | the whole packer: the answer, the final packed stocks and the final queue are exactly those of the reference run after the initial step; no stock is lost or duplicated; the loop ends because each turn that does not answer false shortens the queue by one |

## Left out

- The sheet's placement check, `validate_pack_step`, is a function parameter. The class `Sheet`
  (bounds and overlap checks, statistics, export) is not part of this model.
- The initial step `sheet.packNext((0, 0))` (algorithm.py:9) is modelled only as the boolean
  `packsFirst`: it either packed the front stock at the origin or did nothing. What the sheet
  decides there is not part of this model.
- The sort at algorithm.py:6 is not modelled. It sorts the module-level list `stocks`, not the
  sheet's queue. Whether the sheet shares that list object depends on `Sheet.addStocks`, which
  is not part of this model.
- The `print` at algorithm.py:49 and the example run at algorithm.py:57-63 are console output
  and an import-time side effect.
- The two-argument `set_loc` at stock.py:19-24 is not modelled. It is replaced by the
  definition at stock.py:26, so it cannot be called.
- `__str__` and `__repr__` (stock.py:39-43) are string formatting for display.
- Sides and coordinates are unbounded integers.
  - Every visible caller passes integers: benchmark.py:23-26 parses them with `int`, and the
    example at algorithm.py:59 uses integer literals.
  - Python integers do not overflow, so unbounded `int` is exact for them.
  - Float sides and coordinates are not modelled. With floats, the candidate sums at
    algorithm.py:22, 27, 37 and 42 round, so the points handed to the sheet's check could
    differ from the model's exact sums.
- Sheets.Sheet.Valid: the model requires that no stock object is listed twice in the packed
  and waiting lists together.
  - Python would accept such a list. There, the in-place turn at algorithm.py:33 would also
    turn a packed stock in the middle of the search.
  - Every visible caller builds fresh stocks (algorithm.py:59, benchmark.py:26,
    visualization.py:271-278), so this sharing is not modelled.
- visualization.py and benchmark.py are drawing, file I/O and timing.
- The free-rectangle packer `bin_packing_BLF` that those two files import is not in any
  source file, so it is not part of this model.
- Algorithm.FindPoint: the call `stock.rotate90()` at algorithm.py:33 is modelled as
  `Stock.Rotate`. As written, the call raises an error (see Findings).

## Findings

| source | as written | input that shows it | evidently intended | confidence | as-written member | corrected member |
|---|---|---|---|---|---|---|
| algorithm.py:33 | `stock.rotate90()` calls a method that `Stock` does not define (it defines `rotate`, stock.py:13), so the first search that rejects both unturned points of the first packed stock raises AttributeError. This assumes a complete `stock` module that defines `Sheet` next to this `Stock`. algorithm.py:1 imports `Sheet` from `stock`, and the stock.py shown does not define it, so with these files alone the import fails before line 33 is reached | one 4x3 stock packed at (0, 0); a 2x5 stock waits; the sheet accepts only a lying 5x2 stock | turn the stock with `rotate` and try the two points again: the stock is packed at (4, 0) as 5x2 | high (not executed) | PackingModel.Rotate90Raises | PackingModel.SearchIsFirstAccepted |
