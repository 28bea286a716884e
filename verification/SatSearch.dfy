/** The lookups of ord/src/index.rs in the table of unspent outputs and their sat
    ranges: one sat, and all sats of a range. */
module SatSearch {
  import opened Wrappers
  import opened SatEpochs
  import opened SatDegrees

  datatype OutPoint = OutPoint(txid: string, vout: nat)
  datatype SatPoint = SatPoint(outpoint: OutPoint, offset: nat)
  datatype SatRange = SatRange(start: nat, delta: nat) {
    function End(): nat {
      start + delta
    }
  }
  datatype Entry = Entry(outpoint: OutPoint, ranges: seq<SatRange>)
  datatype Piece = Piece(start: nat, size: nat, satpoint: SatPoint)
  datatype SearchError = EndBeforeStart | Underflow

  /** The sats that come before range `j` of an output. */
  function Offset(ranges: seq<SatRange>, j: nat): nat
    requires j <= |ranges|
  {
    if j == 0 then 0 else Offset(ranges, j - 1) + ranges[j - 1].delta
  }

  predicate HoldsAt(table: seq<Entry>, i: nat, j: nat, sat: nat) {
    && i < |table| && j < |table[i].ranges|
    && table[i].ranges[j].start <= sat < table[i].ranges[j].End()
  }

  function PointAt(table: seq<Entry>, i: nat, j: nat, sat: nat): SatPoint
    requires HoldsAt(table, i, j, sat)
  {
    SatPoint(table[i].outpoint, Offset(table[i].ranges, j) + sat - table[i].ranges[j].start)
  }

  /** The sats of an output, in the order in which it holds them. */
  function Listed(ranges: seq<SatRange>): (sats: seq<nat>)
    ensures |sats| == Offset(ranges, |ranges|)
  {
    if ranges == [] then []
    else
      var n := |ranges| - 1;
      OffsetOfPrefix(ranges, n, n);
      Listed(ranges[..n]) + seq(ranges[n].delta, k requires 0 <= k < ranges[n].delta => ranges[n].start + k)
  }

  lemma {:induction false} OffsetOfPrefix(ranges: seq<SatRange>, n: nat, j: nat)
    requires j <= n <= |ranges|
    ensures Offset(ranges[..n], j) == Offset(ranges, j)
  {
    if j > 0 {
      OffsetOfPrefix(ranges, n, j - 1);
    }
  }

  lemma {:induction false} ListedAt(ranges: seq<SatRange>, j: nat, k: nat)
    requires j < |ranges| && k < ranges[j].delta
    ensures Offset(ranges, j) + k < |Listed(ranges)|
    ensures Listed(ranges)[Offset(ranges, j) + k] == ranges[j].start + k
    decreases |ranges|
  {
    var n := |ranges| - 1;
    OffsetOfPrefix(ranges, n, j);
    OffsetOfPrefix(ranges, n, n);
    if j < n {
      ListedAt(ranges[..n], j, k);
    }
  }

  /** The offset of a point counts the sats that the output holds before the sat. */
  ghost predicate IsPosition(table: seq<Entry>, i: nat, sat: nat, point: SatPoint) {
    && i < |table| && point.outpoint == table[i].outpoint
    && point.offset < |Listed(table[i].ranges)| && Listed(table[i].ranges)[point.offset] == sat
  }

  lemma PointIsPosition(table: seq<Entry>, i: nat, j: nat, sat: nat)
    requires HoldsAt(table, i, j, sat)
    ensures IsPosition(table, i, sat, PointAt(table, i, j, sat))
  {
    ListedAt(table[i].ranges, j, sat - table[i].ranges[j].start);
  }

  /** What the table keeps: no range is empty and no sat is recorded twice. */
  ghost predicate Recorded(table: seq<Entry>) {
    && (forall i: nat, j: nat :: i < |table| && j < |table[i].ranges| ==> table[i].ranges[j].delta > 0)
    && (forall i, j, k, l, sat ::
          HoldsAt(table, i, j, sat) && HoldsAt(table, k, l, sat) ==> i == k && j == l)
  }

  predicate Overlaps(range: SatRange, start: nat, end: nat) {
    range.End() > start && range.start < end
  }

  function Max(a: nat, b: nat): nat {
    if a < b then b else a
  }

  function Min(a: nat, b: nat): nat {
    if a < b then a else b
  }

  /** The part of a range inside `[start, end)`, and where it is. */
  function Clip(entry: Entry, j: nat, start: nat, end: nat): Piece
    requires j < |entry.ranges| && start <= end && Overlaps(entry.ranges[j], start, end)
  {
    var range := entry.ranges[j];
    var low, high := Max(range.start, start), Min(range.End(), end);
    Piece(low, high - low, SatPoint(entry.outpoint, Offset(entry.ranges, j) + low - range.start))
  }

  /** The clips of the first `n` ranges of an output. */
  function Clips(entry: Entry, n: nat, start: nat, end: nat): seq<Piece>
    requires n <= |entry.ranges| && start <= end
  {
    if n == 0 then []
    else Clips(entry, n - 1, start, end) +
         if Overlaps(entry.ranges[n - 1], start, end) then [Clip(entry, n - 1, start, end)] else []
  }

  /** The clips of the first `n` outputs, in table order. */
  function Pieces(table: seq<Entry>, n: nat, start: nat, end: nat): seq<Piece>
    requires n <= |table| && start <= end
  {
    if n == 0 then []
    else Pieces(table, n - 1, start, end) + Clips(table[n - 1], |table[n - 1].ranges|, start, end)
  }

  function Total(pieces: seq<Piece>): nat {
    if pieces == [] then 0 else Total(pieces[..|pieces| - 1]) + pieces[|pieces| - 1].size
  }

  /** The sats from `low` up to and without `high`. */
  ghost function Interval(low: nat, high: nat): (sats: set<nat>)
    requires low <= high
    ensures forall sat: nat :: sat in sats <==> low <= sat < high
    ensures |sats| == high - low
  {
    if low == high then {} else Interval(low, high - 1) + {high - 1}
  }

  /** The sats a piece stands for. */
  ghost function Span(piece: Piece): set<nat> {
    Interval(piece.start, piece.start + piece.size)
  }

  ghost function Sats(pieces: seq<Piece>): set<nat> {
    if pieces == [] then {} else Sats(pieces[..|pieces| - 1]) + Span(pieces[|pieces| - 1])
  }

  ghost predicate Apart(pieces: seq<Piece>) {
    forall p, q :: 0 <= p < q < |pieces| ==> Span(pieces[p]) !! Span(pieces[q])
  }

  /** Where a sat of a piece is. */
  function Advance(piece: Piece, sat: nat): SatPoint
    requires piece.start <= sat
  {
    SatPoint(piece.satpoint.outpoint, piece.satpoint.offset + sat - piece.start)
  }

  /** What the loops have gathered before range `j` of output `i`. */
  function SoFar(table: seq<Entry>, i: nat, j: nat, start: nat, end: nat): seq<Piece>
    requires i < |table| && j <= |table[i].ranges| && start <= end
  {
    Pieces(table, i, start, end) + Clips(table[i], j, start, end)
  }

  /** A place that holds the sat, or nothing exactly when its height is not indexed or
      no range holds it. */
  ghost predicate IsAnswer(table: seq<Entry>, blockCount: nat, sat: nat, found: Option<SatPoint>)
    requires sat < SUPPLY
  {
    && (found.Some? ==> exists i, j :: HoldsAt(table, i, j, sat) && found.value == PointAt(table, i, j, sat))
    && (found.Some? ==> exists i :: IsPosition(table, i, sat, found.value))
    && (found.None? <==> blockCount <= HeightOfSat(sat) || forall i, j :: !HoldsAt(table, i, j, sat))
  }

  method Find(table: seq<Entry>, blockCount: nat, sat: nat) returns (found: Option<SatPoint>)
    requires sat < SUPPLY
    ensures IsAnswer(table, blockCount, sat, found)
  {
    if blockCount <= HeightOfSat(sat) {
      return None;
    }
    var i: nat := 0;
    while i < |table|
      invariant i <= |table|
      invariant forall k: nat, l: nat :: k < i ==> !HoldsAt(table, k, l, sat)
    {
      var offset: nat := 0;
      var j: nat := 0;
      while j < |table[i].ranges|
        invariant j <= |table[i].ranges|
        invariant offset == Offset(table[i].ranges, j)
        invariant forall l: nat :: l < j ==> !HoldsAt(table, i, l, sat)
      {
        var range := table[i].ranges[j];
        if range.start <= sat < range.End() {
          assert HoldsAt(table, i, j, sat);
          PointIsPosition(table, i, j, sat);
          return Some(SatPoint(table[i].outpoint, offset + sat - range.start));
        }
        offset := offset + range.delta;
        j := j + 1;
      }
      i := i + 1;
    }
    return None;
  }

  lemma SoFarStep(table: seq<Entry>, i: nat, j: nat, start: nat, end: nat)
    requires i < |table| && j < |table[i].ranges| && start <= end
    ensures !Overlaps(table[i].ranges[j], start, end) ==>
              SoFar(table, i, j + 1, start, end) == SoFar(table, i, j, start, end)
    ensures Overlaps(table[i].ranges[j], start, end) ==>
              && SoFar(table, i, j + 1, start, end) ==
                 SoFar(table, i, j, start, end) + [Clip(table[i], j, start, end)]
              && Total(SoFar(table, i, j + 1, start, end)) ==
                 Total(SoFar(table, i, j, start, end)) + Clip(table[i], j, start, end).size
  {
    var before := SoFar(table, i, j, start, end);
    if Overlaps(table[i].ranges[j], start, end) {
      var clip := Clip(table[i], j, start, end);
      assert SoFar(table, i, j + 1, start, end) == before + [clip];
      assert (before + [clip])[..|before|] == before;
    } else {
      assert SoFar(table, i, j + 1, start, end) == before;
    }
  }

  /** The next output starts with what the previous one ended with. */
  lemma SoFarWraps(table: seq<Entry>, i: nat, start: nat, end: nat)
    requires i < |table| && start <= end
    ensures SoFar(table, i, 0, start, end) == Pieces(table, i, start, end)
    ensures Pieces(table, i + 1, start, end) == SoFar(table, i, |table[i].ranges|, start, end)
    ensures i + 1 < |table| ==>
              SoFar(table, i + 1, 0, start, end) == SoFar(table, i, |table[i].ranges|, start, end)
  {
  }

  ghost predicate Gathered(table: seq<Entry>, i: nat, j: nat, sat: nat) {
    exists k: nat, l: nat :: (k < i || (k == i && l < j)) && HoldsAt(table, k, l, sat)
  }

  lemma ClipSpans(table: seq<Entry>, i: nat, j: nat, start: nat, end: nat, sat: nat)
    requires i < |table| && j < |table[i].ranges| && start <= end && Overlaps(table[i].ranges[j], start, end)
    ensures sat in Span(Clip(table[i], j, start, end)) <==> start <= sat < end && HoldsAt(table, i, j, sat)
  {
  }

  /** The pieces gathered so far stand for exactly the sats of the asked range
      that the ranges looked at so far hold. */
  lemma {:induction false} GatheredSats(table: seq<Entry>, i: nat, j: nat, start: nat, end: nat, sat: nat)
    requires i < |table| && j <= |table[i].ranges| && start <= end
    ensures sat in Sats(SoFar(table, i, j, start, end)) <==>
            start <= sat < end && Gathered(table, i, j, sat)
    decreases i, j
  {
    hide SoFar, Sats, HoldsAt, Gathered;
    if j > 0 {
      GatheredSats(table, i, j - 1, start, end, sat);
      SoFarStep(table, i, j - 1, start, end);
      SatsStep(table, i, j - 1, start, end, sat);
      GatheredStep(table, i, j - 1, sat);
    } else if i > 0 {
      GatheredSats(table, i - 1, |table[i - 1].ranges|, start, end, sat);
      SoFarWraps(table, i - 1, start, end);
      GatheredWraps(table, i - 1, sat);
    } else {
      NoPieces(table, start, end);
      NothingGathered(table, sat);
    }
  }

  lemma {:induction false} SatsStep(table: seq<Entry>, i: nat, j: nat, start: nat, end: nat, sat: nat)
    requires i < |table| && j < |table[i].ranges| && start <= end
    ensures sat in Sats(SoFar(table, i, j + 1, start, end)) <==>
            sat in Sats(SoFar(table, i, j, start, end)) || (start <= sat < end && HoldsAt(table, i, j, sat))
  {
    hide SoFar, Clip;
    SoFarStep(table, i, j, start, end);
    var before := SoFar(table, i, j, start, end);
    if Overlaps(table[i].ranges[j], start, end) {
      var clip := Clip(table[i], j, start, end);
      ClipSpans(table, i, j, start, end, sat);
      assert (before + [clip])[..|before|] == before;
      assert Sats(before + [clip]) == Sats(before) + Span(clip);
    }
  }

  lemma GatheredStep(table: seq<Entry>, i: nat, j: nat, sat: nat)
    ensures Gathered(table, i, j + 1, sat) <==> Gathered(table, i, j, sat) || HoldsAt(table, i, j, sat)
  {
  }

  lemma NothingGathered(table: seq<Entry>, sat: nat)
    ensures !Gathered(table, 0, 0, sat)
  {
  }

  lemma GatheredWraps(table: seq<Entry>, i: nat, sat: nat)
    requires i < |table|
    ensures Gathered(table, i + 1, 0, sat) <==> Gathered(table, i, |table[i].ranges|, sat)
  {
  }

  lemma {:induction false} SpanInSats(pieces: seq<Piece>, p: nat)
    requires p < |pieces|
    ensures Span(pieces[p]) <= Sats(pieces)
  {
    if p < |pieces| - 1 {
      SpanInSats(pieces[..|pieces| - 1], p);
    }
  }

  lemma {:induction false} PieceAdded(pieces: seq<Piece>, piece: Piece)
    requires Apart(pieces) && |Sats(pieces)| == Total(pieces) && Span(piece) !! Sats(pieces)
    ensures Apart(pieces + [piece]) && |Sats(pieces + [piece])| == Total(pieces + [piece])
  {
    assert (pieces + [piece])[..|pieces|] == pieces;
    assert |Sats(pieces) + Span(piece)| == |Sats(pieces)| + |Span(piece)|;
    forall p | 0 <= p < |pieces| ensures Span(pieces[p]) !! Span(piece) {
      SpanInSats(pieces, p);
    }
  }

  /** Pieces do not share sats, so their sizes count the sats they stand for. */
  lemma {:induction false} SoFarCounts(table: seq<Entry>, i: nat, j: nat, start: nat, end: nat)
    requires Recorded(table) && i < |table| && j <= |table[i].ranges| && start <= end
    ensures Apart(SoFar(table, i, j, start, end))
    ensures |Sats(SoFar(table, i, j, start, end))| == Total(SoFar(table, i, j, start, end))
    decreases i, j
  {
    hide SoFar, Clip, Sats, Apart, Total;
    if j > 0 {
      SoFarCounts(table, i, j - 1, start, end);
      SoFarStep(table, i, j - 1, start, end);
      if Overlaps(table[i].ranges[j - 1], start, end) {
        var before, clip := SoFar(table, i, j - 1, start, end), Clip(table[i], j - 1, start, end);
        forall sat | sat in Span(clip) ensures sat !in Sats(before) {
          ClipSpans(table, i, j - 1, start, end, sat);
          GatheredSats(table, i, j - 1, start, end, sat);
        }
        PieceAdded(before, clip);
      }
    } else if i > 0 {
      SoFarCounts(table, i - 1, |table[i - 1].ranges|, start, end);
      SoFarWraps(table, i - 1, start, end);
    } else {
      NoPieces(table, start, end);
    }
  }

  lemma FirstPieces(table: seq<Entry>, start: nat, end: nat)
    requires start <= end
    ensures Pieces(table, 0, start, end) == [] && Total([]) == 0
  {
  }

  lemma NoPieces(table: seq<Entry>, start: nat, end: nat)
    requires |table| > 0 && start <= end
    ensures SoFar(table, 0, 0, start, end) == [] && Apart([]) && |Sats([])| == Total([]) == 0
  {
  }

  /** The remaining count never goes below zero. */
  lemma SoFarFits(table: seq<Entry>, i: nat, j: nat, start: nat, end: nat)
    requires Recorded(table) && i < |table| && j <= |table[i].ranges| && start <= end
    ensures Total(SoFar(table, i, j, start, end)) <= end - start
    ensures Total(SoFar(table, i, j, start, end)) == end - start ==>
              forall sat :: sat in Interval(start, end) ==> Gathered(table, i, j, sat)
  {
    hide SoFar, Sats, Total;
    SoFarCounts(table, i, j, start, end);
    var sats, all := Sats(SoFar(table, i, j, start, end)), Interval(start, end);
    forall sat: nat ensures sat in sats <==> sat in all && Gathered(table, i, j, sat) {
      GatheredSats(table, i, j, start, end, sat);
    }
    SubsetSize(sats, all);
  }

  lemma {:induction false} SubsetSize(small: set<nat>, large: set<nat>)
    requires small <= large
    ensures |small| <= |large|
    ensures |small| == |large| ==> small == large
  {
    assert large == small + (large - small);
    assert |large| == |small| + |large - small|;
  }

  /** Leaving the inner loop once nothing remains loses nothing. */
  lemma {:induction false} NothingLeft(table: seq<Entry>, i: nat, j: nat, start: nat, end: nat)
    requires Recorded(table) && i < |table| && j < |table[i].ranges| && start <= end
    requires Overlaps(table[i].ranges[j], start, end)
    requires Total(SoFar(table, i, j + 1, start, end)) == end - start
    ensures SoFar(table, i, j + 1, start, end) == Pieces(table, i + 1, start, end)
  {
    hide Pieces, Total, Clip;
    SoFarFits(table, i, j + 1, start, end);
    var ranges := table[i].ranges;
    forall n: nat | j < n < |ranges| ensures !Overlaps(ranges[n], start, end) {
      NoLaterOverlap(table, i, j, n, start, end);
    }
    ClipsStay(table[i], j + 1, |ranges|, start, end);
    SoFarWraps(table, i, start, end);
  }

  lemma NoLaterOverlap(table: seq<Entry>, i: nat, j: nat, n: nat, start: nat, end: nat)
    requires Recorded(table) && i < |table| && j < n < |table[i].ranges| && start <= end
    requires Overlaps(table[i].ranges[j], start, end)
    requires forall sat :: sat in Interval(start, end) ==> Gathered(table, i, j + 1, sat)
    ensures !Overlaps(table[i].ranges[n], start, end)
  {
    var range := table[i].ranges[n];
    if Overlaps(range, start, end) {
      var sat := Max(range.start, start);
      assert HoldsAt(table, i, n, sat);
      assert start == end ==> HoldsAt(table, i, j, sat);
      var asked := sat in Interval(start, end);
    }
  }

  lemma {:induction false} ClipsStay(entry: Entry, m: nat, n: nat, start: nat, end: nat)
    requires m <= n <= |entry.ranges| && start <= end
    requires forall k: nat :: m <= k < n ==> !Overlaps(entry.ranges[k], start, end)
    ensures Clips(entry, n, start, end) == Clips(entry, m, start, end)
  {
    if m < n {
      ClipsStay(entry, m, n - 1, start, end);
    }
  }

  /** What one overlapping range adds, and when it is the last one. */
  lemma OverlapStep(table: seq<Entry>, i: nat, j: nat, start: nat, end: nat, low: nat, high: nat)
    requires Recorded(table) && i < |table| && j < |table[i].ranges| && start <= end
    requires Overlaps(table[i].ranges[j], start, end)
    requires low == Max(table[i].ranges[j].start, start) && high == Min(table[i].ranges[j].End(), end)
    ensures table[i].ranges[j].start <= low <= high
    ensures SoFar(table, i, j + 1, start, end) == SoFar(table, i, j, start, end) +
            [Piece(low, high - low,
                   SatPoint(table[i].outpoint, Offset(table[i].ranges, j) + low - table[i].ranges[j].start))]
    ensures Total(SoFar(table, i, j + 1, start, end)) ==
            Total(SoFar(table, i, j, start, end)) + (high - low) <= end - start
    ensures Total(SoFar(table, i, j + 1, start, end)) == end - start ==>
              SoFar(table, i, j + 1, start, end) == Pieces(table, i + 1, start, end)
  {
    hide SoFar, Pieces, Total, Recorded;
    SoFarStep(table, i, j, start, end);
    SoFarFits(table, i, j + 1, start, end);
    if Total(SoFar(table, i, j + 1, start, end)) == end - start {
      NothingLeft(table, i, j, start, end);
    }
  }

  /** The two loops: the inner one stops early, the outer one never does. */
  method Collect(table: seq<Entry>, start: nat, end: nat) returns (result: seq<Piece>)
    requires Recorded(table) && start <= end
    ensures result == Pieces(table, |table|, start, end)
  {
    hide SoFar, Pieces, Clips, Clip, Total, Recorded, Max, Min, Gathered, HoldsAt, Overlaps;
    FirstPieces(table, start, end);
    var remaining: int := end - start;
    result := [];
    var i: nat := 0;
    while i < |table|
      invariant i <= |table|
      invariant result == Pieces(table, i, start, end)
      invariant remaining == end - start - Total(result) >= 0
    {
      var offset: nat := 0;
      var j: nat := 0;
      var entry := table[i];
      SoFarWraps(table, i, start, end);
      while j < |entry.ranges|
        invariant j <= |entry.ranges|
        invariant offset == Offset(entry.ranges, j)
        invariant result == SoFar(table, i, j, start, end)
        invariant remaining == end - start - Total(result) >= 0
      {
        var range := entry.ranges[j];
        if Overlaps(range, start, end) {
          var low, high := Max(range.start, start), Min(range.End(), end);
          OverlapStep(table, i, j, start, end, low, high);
          result := result + [Piece(low, high - low, SatPoint(entry.outpoint, offset + low - range.start))];
          remaining := remaining - (high - low);
          if remaining == 0 {
            break;
          }
        } else {
          SoFarStep(table, i, j, start, end);
        }
        offset := offset + range.delta;
        j := j + 1;
      }
      i := i + 1;
    }
  }

  method FindRange(table: seq<Entry>, blockCount: nat, start: nat, end: nat)
    returns (found: Result<Option<seq<Piece>>, SearchError>)
    requires Recorded(table) && end <= SUPPLY
    ensures end == 0 ==> found == Err(Underflow)
    ensures end > 0 && blockCount < HeightOfSat(end - 1) + 1 ==> found == Ok(None)
    ensures end > 0 && blockCount >= HeightOfSat(end - 1) + 1 && end < start ==> found == Err(EndBeforeStart)
    ensures end > 0 && blockCount >= HeightOfSat(end - 1) + 1 && start <= end ==>
              found == Ok(Some(Pieces(table, |table|, start, end)))
  {
    if end == 0 {
      return Err(Underflow);
    }
    if blockCount < HeightOfSat(end - 1) + 1 {
      return Ok(None);
    }
    if end < start {
      return Err(EndBeforeStart);
    }
    var result := Collect(table, start, end);
    return Ok(Some(result));
  }

  ghost predicate Held(table: seq<Entry>, sat: nat) {
    exists i, j :: HoldsAt(table, i, j, sat)
  }

  /** The answer stands for exactly what the table holds of the asked range, each
      sat once; when the table holds all of it, the sizes add up to the range. */
  lemma {:induction false} RangeIsCovered(table: seq<Entry>, start: nat, end: nat)
    requires Recorded(table) && start <= end
    ensures var pieces := Pieces(table, |table|, start, end);
            && Apart(pieces)
            && (forall sat :: sat in Sats(pieces) <==> start <= sat < end && Held(table, sat))
            && ((forall sat :: sat in Interval(start, end) ==> Held(table, sat)) <==> Total(pieces) == end - start)
  {
    hide SoFar, Pieces, Total, Apart;
    if |table| == 0 {
      NothingHeld(table, start, end);
    } else {
      var i := |table| - 1;
      var j := |table[i].ranges|;
      SoFarWraps(table, i, start, end);
      SoFarCounts(table, i, j, start, end);
      SoFarFits(table, i, j, start, end);
      var sats := Sats(SoFar(table, i, j, start, end));
      forall sat: nat ensures sat in sats <==> start <= sat < end && Held(table, sat) {
        GatheredSats(table, i, j, start, end, sat);
        AllGathered(table, sat);
      }
      if forall sat :: sat in Interval(start, end) ==> Held(table, sat) {
        assert sats == Interval(start, end);
      }
    }
  }

  /** When the table holds every sat mined so far, any range the height check
      lets through is answered in full. */
  lemma MinedRangeIsFull(table: seq<Entry>, blockCount: nat, start: nat, end: nat)
    requires Recorded(table) && start <= end && 0 < end <= SUPPLY
    requires forall sat :: 0 <= sat < StartingSat(blockCount) ==> Held(table, sat)
    requires blockCount >= HeightOfSat(end - 1) + 1
    ensures Total(Pieces(table, |table|, start, end)) == end - start
    ensures Sats(Pieces(table, |table|, start, end)) == Interval(start, end)
  {
    hide StartingSat, HeightOfSat, Pieces, Total, Recorded, Held;
    MinedBelow(end - 1, blockCount);
    RangeIsCovered(table, start, end);
  }

  lemma AllGathered(table: seq<Entry>, sat: nat)
    requires |table| > 0
    ensures Gathered(table, |table| - 1, |table[|table| - 1].ranges|, sat) <==> Held(table, sat)
  {
  }

  lemma NothingHeld(table: seq<Entry>, start: nat, end: nat)
    requires |table| == 0 && start <= end
    ensures Pieces(table, 0, start, end) == [] && Apart([]) && Total([]) == 0 && Sats([]) == {}
    ensures forall sat :: !Held(table, sat)
    ensures (forall sat :: sat in Interval(start, end) ==> Held(table, sat)) <==> start == end
  {
    if start < end {
      assert start in Interval(start, end);
    }
  }

  /** Every sat of a piece is where the lookup of that one sat finds it. */
  lemma {:induction false} PiecesAgree(table: seq<Entry>, n: nat, start: nat, end: nat, p: nat, sat: nat)
    requires n <= |table| && start <= end && p < |Pieces(table, n, start, end)|
    requires sat in Span(Pieces(table, n, start, end)[p])
    ensures exists i, j :: HoldsAt(table, i, j, sat) &&
                           PointAt(table, i, j, sat) == Advance(Pieces(table, n, start, end)[p], sat)
  {
    var before := Pieces(table, n - 1, start, end);
    if p < |before| {
      PiecesAgree(table, n - 1, start, end, p, sat);
    } else {
      ClipsAgree(table, n - 1, |table[n - 1].ranges|, start, end, p - |before|, sat);
    }
  }

  lemma {:induction false} ClipsAgree(table: seq<Entry>, i: nat, n: nat, start: nat, end: nat, p: nat, sat: nat)
    requires i < |table| && n <= |table[i].ranges| && start <= end && p < |Clips(table[i], n, start, end)|
    requires sat in Span(Clips(table[i], n, start, end)[p])
    ensures exists j :: HoldsAt(table, i, j, sat) &&
                        PointAt(table, i, j, sat) == Advance(Clips(table[i], n, start, end)[p], sat)
  {
    var before := Clips(table[i], n - 1, start, end);
    if p < |before| {
      ClipsAgree(table, i, n - 1, start, end, p, sat);
    } else {
      assert HoldsAt(table, i, n - 1, sat);
    }
  }

  /** The height check of a range implies that of each of its sats. */
  lemma HeightsAscend(low: nat, high: nat)
    requires low <= high < SUPPLY
    ensures HeightOfSat(low) <= HeightOfSat(high)
  {
    hide HeightOfSat, StartingSat;
    MinedBelow(high, HeightOfSat(high) + 1);
    MinedBelow(low, HeightOfSat(high) + 1);
  }

  /** Every sat of every piece of an answered range is exactly where the lookup of that
      one sat finds it, and nowhere else. */
  lemma {:induction false} FindAgrees(table: seq<Entry>, blockCount: nat, start: nat, end: nat, p: nat, sat: nat,
                                      found: Option<SatPoint>)
    requires Recorded(table) && start <= end && 0 < end <= SUPPLY && blockCount >= HeightOfSat(end - 1) + 1
    requires p < |Pieces(table, |table|, start, end)| && sat in Span(Pieces(table, |table|, start, end)[p])
    requires sat < SUPPLY && IsAnswer(table, blockCount, sat, found)
    ensures found == Some(Advance(Pieces(table, |table|, start, end)[p], sat))
    ensures forall i, j | HoldsAt(table, i, j, sat) :: found == Some(PointAt(table, i, j, sat))
  {
    hide HeightOfSat, Pieces, HoldsAt, PointAt;
    PiecesAgree(table, |table|, start, end, p, sat);
    SpanIsAsked(table, start, end, p, sat);
    HeightsAscend(sat, end - 1);
    var i, j :|
      HoldsAt(table, i, j, sat) && PointAt(table, i, j, sat) == Advance(Pieces(table, |table|, start, end)[p], sat);
    var k, l :| HoldsAt(table, k, l, sat) && found.value == PointAt(table, k, l, sat);
    OnePlace(table, sat);
  }

  lemma OnePlace(table: seq<Entry>, sat: nat)
    requires Recorded(table)
    ensures forall i, j, k, l :: HoldsAt(table, i, j, sat) && HoldsAt(table, k, l, sat) ==> i == k && j == l
  {
  }

  lemma SpanIsAsked(table: seq<Entry>, start: nat, end: nat, p: nat, sat: nat)
    requires Recorded(table) && start <= end
    requires p < |Pieces(table, |table|, start, end)| && sat in Span(Pieces(table, |table|, start, end)[p])
    ensures start <= sat < end
  {
    hide Pieces, Span, Sats;
    RangeIsCovered(table, start, end);
    SpanInSats(Pieces(table, |table|, start, end), p);
    assert sat in Sats(Pieces(table, |table|, start, end));
  }
}
