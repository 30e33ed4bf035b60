/**
 * The part of a sheet that the packer relies on: the stocks still to be packed, in queue
 * order, and the stocks already packed, in the order they were packed. How the sheet
 * checks bounds and overlap is not modelled; the packer receives that check as a
 * parameter (see PackingModel.Validator).
 */
module Sheets {
  import opened Stocks

  /** The values of a list of stocks, element by element. */
  function Rects(stocks: seq<Stock>): seq<Rect>
    reads stocks
  {
    seq(|stocks|, i requires 0 <= i < |stocks| reads stocks => stocks[i].AsRect())
  }

  /** No stock object appears twice in the list. */
  ghost predicate Distinct(stocks: seq<Stock>) {
    forall i, j :: 0 <= i < j < |stocks| ==> stocks[i] != stocks[j]
  }

  /** In a list without repeats, the front of the queue occurs nowhere else. */
  lemma FrontOccursOnce(packed: seq<Stock>, unpacked: seq<Stock>)
    requires Distinct(packed + unpacked) && |unpacked| > 0
    ensures unpacked[0] !in packed && unpacked[0] !in unpacked[1..]
  {
    var all := packed + unpacked;
    assert all[|packed|] == unpacked[0];
    forall j | 0 <= j < |packed| ensures packed[j] != unpacked[0] {
      assert all[j] == packed[j];
    }
    forall j | 1 <= j < |unpacked| ensures unpacked[j] != unpacked[0] {
      assert all[|packed| + j] == unpacked[j];
    }
  }

  /** Moving the front of the queue to the end of the packed list keeps the whole list. */
  lemma MoveFront(packed: seq<Stock>, unpacked: seq<Stock>)
    requires |unpacked| > 0
    ensures (packed + [unpacked[0]]) + unpacked[1..] == packed + unpacked
  {
  }

  class Sheet {
    var packed: seq<Stock>
    var unpacked: seq<Stock>

    /** A stock is either packed or waiting, never both, and never listed twice. */
    ghost predicate Valid()
      reads this
    {
      Distinct(packed + unpacked)
    }

    function PackedRects(): seq<Rect>
      reads this, packed
    {
      Rects(packed)
    }

    function UnpackedRects(): seq<Rect>
      reads this, unpacked
    {
      Rects(unpacked)
    }

    /**
     * Packs the stock at the front of the queue at `point`: sets its location, takes it off
     * the front of the queue and appends it to the packed list.
     */
    method Pack(stock: Stock, point: Point)
      requires Valid() && |unpacked| > 0 && stock == unpacked[0]
      modifies this, stock
      ensures Valid()
      ensures packed == old(packed) + [stock] && unpacked == old(unpacked)[1..]
      ensures PackedRects() == old(PackedRects()) + [Rect(point.0, point.1, old(stock.width), old(stock.height))]
      ensures UnpackedRects() == old(UnpackedRects())[1..]
    {
      ghost var all := packed + unpacked;
      FrontOccursOnce(packed, unpacked);
      ghost var restBefore := Rects(unpacked[1..]);
      stock.SetLoc(point);
      packed := packed + [stock];
      unpacked := unpacked[1..];
      assert packed + unpacked == all;
      assert Rects(unpacked) == restBefore;
    }
  }
}
