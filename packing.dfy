/**
 * A value-level reference model of the adjacency-search packer: which candidate points are
 * tried for one stock and in what order (Search, Candidates), and the whole run over the
 * queue (Run, CuttingStock). The imperative packer in module Algorithm is proved equal to it.
 */
module PackingModel {
  import opened Stocks

  datatype Option<T> = None | Some(value: T)

  /**
   * The sheet's placement check: given the packed stocks, the moving stock's current width
   * and height, and a point, whether the sheet accepts the stock there.
   */
  type Validator = (seq<Rect>, int, int, Point) -> bool

  /** The point just right of a packed stock, level with its bottom edge. */
  function RightOf(p: Rect): Point {
    (p.x + p.width, p.y)
  }

  /** The point just above a packed stock, level with its left edge. */
  function AboveOf(p: Rect): Point {
    (p.x, p.y + p.height)
  }

  /** The point touches some packed stock: right of it or above it. */
  ghost predicate Adjacent(packed: seq<Rect>, pt: Point) {
    exists i :: 0 <= i < |packed| && (pt == RightOf(packed[i]) || pt == AboveOf(packed[i]))
  }

  /** The sides (w, h) after n quarter turns. */
  function Orient(w: int, h: int, n: nat): (int, int)
  {
    if n == 0 then (w, h) else var d := Orient(w, h, n - 1); (d.1, d.0)
  }

  /** Quarter turns only count by their parity: an even number leaves the sides as they were. */
  lemma {:induction false} OrientParity(w: int, h: int, n: nat)
    ensures Orient(w, h, n) == if n % 2 == 0 then (w, h) else (h, w)
  {
    if n > 0 {
      OrientParity(w, h, n - 1);
    }
  }

  /** Outcome of the search for one stock: the point chosen, if any, and the final sides. */
  datatype Probe = Probe(point: Option<Point>, width: int, height: int)

  /**
   * The search for one stock of sides (w, h), resumed at packed stock i: try right of it,
   * then above it; if neither is accepted, turn the stock and try the same two again; if
   * still nothing, go on to the next packed stock WITHOUT turning the stock back.
   */
  function SearchFrom(packed: seq<Rect>, i: nat, w: int, h: int, validate: Validator): (r: Probe)
    requires i <= |packed|
    ensures (r.width, r.height) == (w, h) || (r.width, r.height) == (h, w)
    ensures r.point.Some? ==> validate(packed, r.width, r.height, r.point.value)
    ensures r.point.Some? ==> Adjacent(packed, r.point.value)
    decreases |packed| - i
  {
    if i == |packed| then Probe(None, w, h)
    else
      var right, above := RightOf(packed[i]), AboveOf(packed[i]);
      if validate(packed, w, h, right) then Probe(Some(right), w, h)
      else if validate(packed, w, h, above) then Probe(Some(above), w, h)
      else if validate(packed, h, w, right) then Probe(Some(right), h, w)
      else if validate(packed, h, w, above) then Probe(Some(above), h, w)
      else SearchFrom(packed, i + 1, h, w, validate)
  }

  /** The search over the whole packed list. */
  function Search(packed: seq<Rect>, w: int, h: int, validate: Validator): Probe {
    SearchFrom(packed, 0, w, h, validate)
  }

  /** One point to try, with the sides the stock has when it is tried. */
  datatype Candidate = Candidate(point: Point, width: int, height: int)

  /**
   * Candidate j (0 to 3) of packed stock i, stated independently of the search: right of it
   * for j in {0, 2} and above it for j in {1, 3}, in the orientation reached after i earlier
   * turns, plus one more for j >= 2.
   */
  function CandidateAt(packed: seq<Rect>, w: int, h: int, i: nat, j: nat): Candidate
    requires i < |packed| && j < 4
  {
    var d := Orient(w, h, if j < 2 then i else i + 1);
    Candidate(if j == 0 || j == 2 then RightOf(packed[i]) else AboveOf(packed[i]), d.0, d.1)
  }

  /** The order candidates are tried in: packed stocks in list order, then the four tries of each. */
  predicate Before(i': nat, j': nat, i: nat, j: nat) {
    i' < i || (i' == i && j' < j)
  }

  predicate Accepts(validate: Validator, packed: seq<Rect>, c: Candidate) {
    validate(packed, c.width, c.height, c.point)
  }

  /** Candidate (i, j) is accepted and no candidate tried before it is. */
  ghost predicate FirstAccepted(validate: Validator, packed: seq<Rect>, w: int, h: int, i: nat, j: nat)
    requires i < |packed| && j < 4
  {
    Accepts(validate, packed, CandidateAt(packed, w, h, i, j))
    && forall i', j' :: 0 <= i' < |packed| && 0 <= j' < 4 && Before(i', j', i, j) ==>
         !Accepts(validate, packed, CandidateAt(packed, w, h, i', j'))
  }

  /** No candidate of a packed stock from index i on is accepted. */
  ghost predicate NoneAcceptedFrom(validate: Validator, packed: seq<Rect>, w: int, h: int, i: nat) {
    forall i', j' :: i <= i' < |packed| && 0 <= j' < 4 ==> !Accepts(validate, packed, CandidateAt(packed, w, h, i', j'))
  }

  /** Some candidate of packed stock i is accepted: the search stops at the first of them. */
  lemma FoundInBlock(packed: seq<Rect>, i: nat, w: int, h: int, validate: Validator)
    requires i < |packed|
    requires exists j :: 0 <= j < 4 && Accepts(validate, packed, CandidateAt(packed, w, h, i, j))
    ensures var d := Orient(w, h, i);
            var r := SearchFrom(packed, i, d.0, d.1, validate);
            r.point.Some?
            && exists j :: 0 <= j < 4
                 && Accepts(validate, packed, CandidateAt(packed, w, h, i, j))
                 && (forall j' :: 0 <= j' < j ==> !Accepts(validate, packed, CandidateAt(packed, w, h, i, j')))
                 && CandidateAt(packed, w, h, i, j) == Candidate(r.point.value, r.width, r.height)
  {
    var d := Orient(w, h, i);
    var r := SearchFrom(packed, i, d.0, d.1, validate);
    var c0, c1 := CandidateAt(packed, w, h, i, 0), CandidateAt(packed, w, h, i, 1);
    var c2, c3 := CandidateAt(packed, w, h, i, 2), CandidateAt(packed, w, h, i, 3);
    var j :| 0 <= j < 4 && Accepts(validate, packed, CandidateAt(packed, w, h, i, j));
    assert j == 0 || j == 1 || j == 2 || j == 3;
    if Accepts(validate, packed, c0) {
      assert c0 == Candidate(r.point.value, r.width, r.height);
    } else if Accepts(validate, packed, c1) {
      assert c1 == Candidate(r.point.value, r.width, r.height);
    } else if Accepts(validate, packed, c2) {
      assert c2 == Candidate(r.point.value, r.width, r.height);
    } else {
      assert Accepts(validate, packed, c3);
      assert c3 == Candidate(r.point.value, r.width, r.height);
    }
  }

  /** No candidate of packed stock i is accepted: the search turns the stock and moves on. */
  lemma PassBlock(packed: seq<Rect>, i: nat, w: int, h: int, validate: Validator)
    requires i < |packed|
    requires forall j :: 0 <= j < 4 ==> !Accepts(validate, packed, CandidateAt(packed, w, h, i, j))
    ensures var d, e := Orient(w, h, i), Orient(w, h, i + 1);
            SearchFrom(packed, i, d.0, d.1, validate) == SearchFrom(packed, i + 1, e.0, e.1, validate)
  {
    assert !Accepts(validate, packed, CandidateAt(packed, w, h, i, 0));
    assert !Accepts(validate, packed, CandidateAt(packed, w, h, i, 1));
    assert !Accepts(validate, packed, CandidateAt(packed, w, h, i, 2));
    assert !Accepts(validate, packed, CandidateAt(packed, w, h, i, 3));
  }

  /**
   * The search from packed stock i, in the orientation reached by then, returns the first
   * accepted candidate of the packed stocks from i on, or no point and i..|packed| turns more.
   */
  lemma {:induction false} SearchFromFirstAccepted(packed: seq<Rect>, i: nat, w: int, h: int, validate: Validator)
    requires i <= |packed|
    ensures var d := Orient(w, h, i);
            var r := SearchFrom(packed, i, d.0, d.1, validate);
            (r.point.None? ==>
               NoneAcceptedFrom(validate, packed, w, h, i) && (r.width, r.height) == Orient(w, h, |packed|))
            && (r.point.Some? ==>
               exists i0, j0 :: i <= i0 < |packed| && 0 <= j0 < 4
                 && Accepts(validate, packed, CandidateAt(packed, w, h, i0, j0))
                 && (forall i', j' :: i <= i' < |packed| && 0 <= j' < 4 && Before(i', j', i0, j0) ==>
                       !Accepts(validate, packed, CandidateAt(packed, w, h, i', j')))
                 && CandidateAt(packed, w, h, i0, j0) == Candidate(r.point.value, r.width, r.height))
    decreases |packed| - i
  {
    if i < |packed| {
      if exists j :: 0 <= j < 4 && Accepts(validate, packed, CandidateAt(packed, w, h, i, j)) {
        FoundInBlock(packed, i, w, h, validate);
      } else {
        PassBlock(packed, i, w, h, validate);
        SearchFromFirstAccepted(packed, i + 1, w, h, validate);
        var e := Orient(w, h, i + 1);
        var r := SearchFrom(packed, i + 1, e.0, e.1, validate);
        if r.point.Some? {
          var i0, j0 :| i + 1 <= i0 < |packed| && 0 <= j0 < 4
                 && Accepts(validate, packed, CandidateAt(packed, w, h, i0, j0))
                 && (forall i', j' :: i + 1 <= i' < |packed| && 0 <= j' < 4 && Before(i', j', i0, j0) ==>
                       !Accepts(validate, packed, CandidateAt(packed, w, h, i', j')))
                 && CandidateAt(packed, w, h, i0, j0) == Candidate(r.point.value, r.width, r.height);
          assert forall i', j' :: i <= i' < |packed| && 0 <= j' < 4 && Before(i', j', i0, j0) ==>
                   !Accepts(validate, packed, CandidateAt(packed, w, h, i', j'));
        }
      }
    }
  }

  /**
   * Candidate order: the search returns the first accepted candidate, in the sides it was
   * tried in; it returns no point exactly when no candidate is accepted, and then the stock
   * has been turned once for every packed stock.
   */
  lemma SearchIsFirstAccepted(packed: seq<Rect>, w: int, h: int, validate: Validator)
    ensures var r := Search(packed, w, h, validate);
            (r.point.None? <==> NoneAcceptedFrom(validate, packed, w, h, 0))
            && (r.point.None? ==> (r.width, r.height) == Orient(w, h, |packed|))
            && (r.point.Some? ==> exists i, j :: 0 <= i < |packed| && 0 <= j < 4
                                    && FirstAccepted(validate, packed, w, h, i, j)
                                    && CandidateAt(packed, w, h, i, j) == Candidate(r.point.value, r.width, r.height))
  {
    SearchFromFirstAccepted(packed, 0, w, h, validate);
    var r := Search(packed, w, h, validate);
    if r.point.Some? {
      var i0, j0 :| 0 <= i0 < |packed| && 0 <= j0 < 4
                 && Accepts(validate, packed, CandidateAt(packed, w, h, i0, j0))
                 && (forall i', j' :: 0 <= i' < |packed| && 0 <= j' < 4 && Before(i', j', i0, j0) ==>
                       !Accepts(validate, packed, CandidateAt(packed, w, h, i', j')))
                 && CandidateAt(packed, w, h, i0, j0) == Candidate(r.point.value, r.width, r.height);
      assert FirstAccepted(validate, packed, w, h, i0, j0);
    }
  }

  /** With nothing packed yet there is nothing to be adjacent to: no point, and no turn. */
  lemma SearchEmpty(w: int, h: int, validate: Validator)
    ensures Search([], w, h, validate) == Probe(None, w, h)
  {
  }

  /** The outcome of a run: the success flag and the final packed and waiting stocks. */
  datatype Outcome = Outcome(ok: bool, packed: seq<Rect>, unpacked: seq<Rect>)

  /**
   * The front stock once its search is over: at the chosen point in the sides it was accepted
   * in, or, when nothing was accepted, where it was but in the sides the search left it in.
   */
  function Settled(s: Rect, r: Probe): Rect {
    match r.point
    case Some(pt) => Rect(pt.0, pt.1, r.width, r.height)
    case None => s.(width := r.width, height := r.height)
  }

  /**
   * The main loop: while stocks wait, search for the front one; on success pack it there in
   * the orientation it was accepted in; on failure stop with false, the failed stock left at
   * the front in whatever orientation the search left it.
   */
  function Run(packed: seq<Rect>, unpacked: seq<Rect>, validate: Validator): Outcome
    decreases |unpacked|
  {
    if unpacked == [] then Outcome(true, packed, [])
    else
      var r := Search(packed, unpacked[0].width, unpacked[0].height, validate);
      if r.point.None? then Outcome(false, packed, [Settled(unpacked[0], r)] + unpacked[1..])
      else Run(packed + [Settled(unpacked[0], r)], unpacked[1..], validate)
  }

  /**
   * The abstract initial step: `packsFirst` says whether the sheet packed the front stock at
   * the origin before the loop began.
   */
  function InitialStep(packed: seq<Rect>, unpacked: seq<Rect>, packsFirst: bool): (seq<Rect>, seq<Rect>)
  {
    if packsFirst && |unpacked| > 0 then (packed + [unpacked[0].(x := 0, y := 0)], unpacked[1..])
    else (packed, unpacked)
  }

  /** The whole packer: the initial step, then the main loop. */
  function CuttingStock(packed: seq<Rect>, unpacked: seq<Rect>, validate: Validator, packsFirst: bool): Outcome {
    var start := InitialStep(packed, unpacked, packsFirst);
    Run(start.0, start.1, validate)
  }

  /** True exactly when the queue has been emptied. */
  lemma {:induction false} RunOkIffEmpty(packed: seq<Rect>, unpacked: seq<Rect>, validate: Validator)
    ensures Run(packed, unpacked, validate).ok <==> Run(packed, unpacked, validate).unpacked == []
    decreases |unpacked|
  {
    if unpacked != [] {
      var r := Search(packed, unpacked[0].width, unpacked[0].height, validate);
      if r.point.Some? {
        RunOkIffEmpty(packed + [Settled(unpacked[0], r)], unpacked[1..], validate);
      }
    }
  }

  /**
   * Stocks are only moved from the queue to the packed list: the old packed list stays a
   * prefix, and the two lists together keep their length.
   */
  lemma {:induction false} RunKeepsPrefix(packed: seq<Rect>, unpacked: seq<Rect>, validate: Validator)
    ensures var out := Run(packed, unpacked, validate);
            |packed| <= |out.packed| <= |packed| + |unpacked| && out.packed[..|packed|] == packed
            && |out.packed| + |out.unpacked| == |packed| + |unpacked|
    decreases |unpacked|
  {
    if unpacked != [] {
      var r := Search(packed, unpacked[0].width, unpacked[0].height, validate);
      if r.point.Some? {
        var next := packed + [Settled(unpacked[0], r)];
        RunKeepsPrefix(next, unpacked[1..], validate);
        var out := Run(next, unpacked[1..], validate);
        assert out.packed[..|packed|] == out.packed[..|next|][..|packed|];
      }
    }
  }

  /** Stock k of the packed list is where the search for it put it, searching against the stocks packed before it. */
  ghost predicate PlacedBySearch(packed: seq<Rect>, k: nat, s: Rect, validate: Validator)
    requires k < |packed|
  {
    var r := Search(packed[..k], s.width, s.height, validate);
    r.point.Some? && packed[k] == Settled(s, r)
  }

  /** The j-th newly packed stock is the j-th stock of the queue, placed by its own search. */
  lemma {:induction false} RunPlacesBySearch(packed: seq<Rect>, unpacked: seq<Rect>, validate: Validator)
    ensures var out := Run(packed, unpacked, validate);
            |packed| <= |out.packed| <= |packed| + |unpacked|
            && forall j :: 0 <= j < |out.packed| - |packed| ==> PlacedBySearch(out.packed, |packed| + j, unpacked[j], validate)
    decreases |unpacked|
  {
    RunKeepsPrefix(packed, unpacked, validate);
    if unpacked != [] {
      var r := Search(packed, unpacked[0].width, unpacked[0].height, validate);
      if r.point.Some? {
        var next := packed + [Settled(unpacked[0], r)];
        var out := Run(next, unpacked[1..], validate);
        RunPlacesBySearch(next, unpacked[1..], validate);
        RunKeepsPrefix(next, unpacked[1..], validate);
        forall j | 0 <= j < |out.packed| - |packed|
          ensures PlacedBySearch(out.packed, |packed| + j, unpacked[j], validate)
        {
          if j == 0 {
            assert out.packed[..|packed|] == packed;
            assert out.packed[|packed|] == out.packed[..|next|][|packed|];
          } else {
            assert unpacked[j] == unpacked[1..][j - 1];
            assert PlacedBySearch(out.packed, |next| + (j - 1), unpacked[1..][j - 1], validate);
          }
        }
      }
    }
  }

  /**
   * Stock k of the packed list was accepted by the sheet's check where and as it lies, against
   * the stocks packed before it; it touches one of them; and its sides are those of `s`, perhaps turned.
   */
  ghost predicate SoundPlacement(packed: seq<Rect>, k: nat, s: Rect, validate: Validator)
    requires k < |packed|
  {
    var q := packed[k];
    validate(packed[..k], q.width, q.height, (q.x, q.y)) && Adjacent(packed[..k], (q.x, q.y)) && SameSides(s, q)
  }

  /**
   * Every stock the run packs was accepted by the sheet's check at its point and in the
   * orientation it was packed in, against the stocks packed before it; its point is right of
   * or above one of those stocks; and its sides are those of its queue stock, perhaps turned.
   */
  lemma RunPlacements(packed: seq<Rect>, unpacked: seq<Rect>, validate: Validator)
    ensures var out := Run(packed, unpacked, validate);
            |packed| <= |out.packed| <= |packed| + |unpacked|
            && forall j :: 0 <= j < |out.packed| - |packed| ==>
                 SoundPlacement(out.packed, |packed| + j, unpacked[j], validate)
  {
    RunPlacesBySearch(packed, unpacked, validate);
    var out := Run(packed, unpacked, validate);
    forall j | 0 <= j < |out.packed| - |packed|
      ensures SoundPlacement(out.packed, |packed| + j, unpacked[j], validate)
    {
      var k, s := |packed| + j, unpacked[j];
      assert PlacedBySearch(out.packed, k, s, validate);
      var r := SearchFrom(out.packed[..k], 0, s.width, s.height, validate);
      assert out.packed[k] == Rect(r.point.value.0, r.point.value.1, r.width, r.height);
    }
  }

  /**
   * A run that answers false stopped at queue stock n, the first one it did not pack: the
   * search for it, against the final packed list, found nothing; it is left at the front as
   * the search left it, and every stock behind it is untouched.
   */
  lemma {:induction false} RunStopsAt(packed: seq<Rect>, unpacked: seq<Rect>, validate: Validator)
    ensures var out := Run(packed, unpacked, validate);
            var n := |out.packed| - |packed|;
            !out.ok ==>
              0 <= n < |unpacked|
              && var r := Search(out.packed, unpacked[n].width, unpacked[n].height, validate);
                 r.point.None? && out.unpacked == [Settled(unpacked[n], r)] + unpacked[n + 1..]
    decreases |unpacked|
  {
    RunKeepsPrefix(packed, unpacked, validate);
    if unpacked != [] {
      var r := Search(packed, unpacked[0].width, unpacked[0].height, validate);
      if r.point.Some? {
        var next := packed + [Settled(unpacked[0], r)];
        var out := Run(next, unpacked[1..], validate);
        RunStopsAt(next, unpacked[1..], validate);
        RunKeepsPrefix(next, unpacked[1..], validate);
        if !out.ok {
          var n := |out.packed| - |packed|;
          assert unpacked[1..][n - 1] == unpacked[n];
          assert unpacked[1..][n - 1 + 1..] == unpacked[n + 1..];
        }
      }
    }
  }

  /**
   * On false, no candidate for the failed stock was accepted; it keeps its location and its
   * sides up to a turn, and it has been turned once per packed stock.
   */
  lemma RunFailure(packed: seq<Rect>, unpacked: seq<Rect>, validate: Validator)
    ensures var out := Run(packed, unpacked, validate);
            var n := |out.packed| - |packed|;
            !out.ok ==>
              0 <= n < |unpacked| && |out.unpacked| == |unpacked| - n
              && var s, f := unpacked[n], out.unpacked[0];
                 NoneAcceptedFrom(validate, out.packed, s.width, s.height, 0)
                 && f.x == s.x && f.y == s.y
                 && (f.width, f.height) == Orient(s.width, s.height, |out.packed|)
                 && out.unpacked[1..] == unpacked[n + 1..]
  {
    RunStopsAt(packed, unpacked, validate);
    var out := Run(packed, unpacked, validate);
    if !out.ok {
      var n := |out.packed| - |packed|;
      SearchIsFirstAccepted(out.packed, unpacked[n].width, unpacked[n].height, validate);
    }
  }

  /** With nothing packed, the first waiting stock cannot be placed: false, and nothing moves. */
  lemma RunEmptySheetFails(unpacked: seq<Rect>, validate: Validator)
    requires unpacked != []
    ensures Run([], unpacked, validate) == Outcome(false, [], unpacked)
  {
  }

  /**
   * An empty queue succeeds at once; if the initial step packed nothing and the sheet was
   * empty, the packer answers false without moving anything.
   */
  lemma CuttingStockStart(packed: seq<Rect>, unpacked: seq<Rect>, validate: Validator, packsFirst: bool)
    ensures unpacked == [] ==> CuttingStock(packed, unpacked, validate, packsFirst) == Outcome(true, packed, [])
    ensures !packsFirst && packed == [] && unpacked != [] ==>
              CuttingStock(packed, unpacked, validate, packsFirst) == Outcome(false, [], unpacked)
  {
  }

  // The source calls `stock.rotate90()`, a method that Stock does not define: in Python the
  // call raises AttributeError. SearchAsWritten models that; None stands for the exception.

  /** The search as written: it raises as soon as the first packed stock rejects both unturned points. */
  function SearchAsWritten(packed: seq<Rect>, w: int, h: int, validate: Validator): (r: Option<Probe>)
    ensures r.Some? ==> r.value == Search(packed, w, h, validate)
    ensures r.None? <==> |packed| > 0 && !validate(packed, w, h, RightOf(packed[0]))
                                     && !validate(packed, w, h, AboveOf(packed[0]))
  {
    if |packed| == 0 then Some(Probe(None, w, h))
    else if validate(packed, w, h, RightOf(packed[0])) then Some(Probe(Some(RightOf(packed[0])), w, h))
    else if validate(packed, w, h, AboveOf(packed[0])) then Some(Probe(Some(AboveOf(packed[0])), w, h))
    else None
  }

  /**
   * One 4x3 stock packed at the origin and a 2x5 stock that the sheet accepts only lying as
   * 5x2: the search as written raises, while the search with a real rotation packs it right
   * of the first stock.
   */
  lemma Rotate90Raises()
    ensures var packed := [Rect(0, 0, 4, 3)];
            var lying: Validator := (ps: seq<Rect>, w: int, h: int, p: Point) => w == 5 && h == 2;
            SearchAsWritten(packed, 2, 5, lying) == None
            && Search(packed, 2, 5, lying) == Probe(Some((4, 0)), 5, 2)
  {
  }
}
