/** Paddock identity resolution: the latest year's paddocks are the reference
    set, and every paddock id of an earlier year is mapped to the reference
    paddock it overlaps most, or to itself. */
module SpatialMatching {
  import opened FarmRecords
  import opened StringOrder

  // ---------------------------------------------------------------------
  // Geometry, as the outcomes the geometry library reports
  // ---------------------------------------------------------------------

  /** The outcome of intersecting two boundaries: an empty geometry, an
      exception, or a non-empty geometry with its area. */
  datatype Intersection = EmptyIntersection | GeometryError | Overlap(area: real)

  /** The geometry library's two operations the matcher uses. */
  datatype GeometryOps = GeometryOps(area: Polygon -> real, intersect: (Polygon, Polygon) -> Intersection)

  /** A row of the reference set: a paddock id and its boundary. */
  datatype ReferencePaddock = ReferencePaddock(paddockId: string, geometry: Polygon)

  /** The pair find_best_spatial_match returns. */
  datatype Match = Match(best: Option<string>, ratio: real)

  /** The dict get_mapping_stats returns. */
  datatype MappingStats = MappingStats(
    totalPaddocks: nat, selfMapped: nat, remapped: int,
    referenceYear: Option<int>, referencePaddocksCount: nat)

  // ---------------------------------------------------------------------
  // Reference year
  // ---------------------------------------------------------------------

  /** The largest year of the rows; None (pandas' NaN) when there are none. */
  function MaxYear(rows: seq<Record>): (y: Option<int>)
    ensures y.None? <==> rows == []
    ensures y.Some? ==> exists i :: 0 <= i < |rows| && rows[i].year == y.value
    ensures y.Some? ==> forall i :: 0 <= i < |rows| ==> rows[i].year <= y.value
  {
    if rows == [] then None
    else
      var rest := MaxYear(rows[1..]);
      if rest.Some? && rest.value > rows[0].year then
        assert forall i :: 1 <= i < |rows| ==> rows[i] == rows[1..][i - 1];
        rest
      else
        assert forall i :: 1 <= i < |rows| ==> rows[i] == rows[1..][i - 1];
        Some(rows[0].year)
  }

  /** `year == reference_year`; a comparison with NaN or None is never true. */
  predicate InReferenceYear(r: Record, referenceYear: Option<int>)
  {
    referenceYear == Some(r.year)
  }

  // ---------------------------------------------------------------------
  // First row per paddock id (groupby().first() and drop_duplicates)
  // ---------------------------------------------------------------------

  function IdsOf(rows: seq<Record>): set<string>
  {
    set r | r in rows :: r.paddockId
  }

  /** Whether a row takes part: in the reference year when `inReference`, outside it otherwise. */
  predicate Selected(r: Record, referenceYear: Option<int>, inReference: bool)
  {
    InReferenceYear(r, referenceYear) == inReference
  }

  /** Row i is selected and no earlier selected row has its paddock id. */
  predicate IsFirstOfId(rows: seq<Record>, i: int, referenceYear: Option<int>, inReference: bool)
  {
    0 <= i < |rows| && Selected(rows[i], referenceYear, inReference) &&
    forall j :: 0 <= j < i && Selected(rows[j], referenceYear, inReference) ==>
      rows[j].paddockId != rows[i].paddockId
  }

  /** The selected rows, each paddock id kept at its first row, in input order. */
  function FirstPerId(rows: seq<Record>, referenceYear: Option<int>, inReference: bool): seq<Record>
  {
    if rows == [] then []
    else
      var kept := FirstPerId(rows[..|rows| - 1], referenceYear, inReference);
      var last := rows[|rows| - 1];
      if Selected(last, referenceYear, inReference) && last.paddockId !in IdsOf(kept) then kept + [last]
      else kept
  }

  predicate DistinctIds(rows: seq<Record>)
  {
    forall i, j :: 0 <= i < j < |rows| ==> rows[i].paddockId != rows[j].paddockId
  }

  lemma IdsOfAppend(a: seq<Record>, r: Record)
    ensures IdsOf(a + [r]) == IdsOf(a) + {r.paddockId}
  {
  }

  /** Dropping the last row leaves the first-of-id status of earlier rows unchanged. */
  lemma IsFirstOfIdPrefix(rows: seq<Record>, referenceYear: Option<int>, inReference: bool)
    requires rows != []
    ensures forall i :: 0 <= i < |rows| - 1 ==>
      (IsFirstOfId(rows, i, referenceYear, inReference) <==>
       IsFirstOfId(rows[..|rows| - 1], i, referenceYear, inReference))
  {
  }

  /** The kept rows carry exactly the ids of the selected rows. */
  lemma {:induction false} FirstPerIdIds(rows: seq<Record>, referenceYear: Option<int>, inReference: bool)
    ensures IdsOf(FirstPerId(rows, referenceYear, inReference)) ==
      set r | r in rows && Selected(r, referenceYear, inReference) :: r.paddockId
  {
    if rows != [] {
      var init := rows[..|rows| - 1];
      var last := rows[|rows| - 1];
      var kept := FirstPerId(init, referenceYear, inReference);
      FirstPerIdIds(init, referenceYear, inReference);
      assert forall r :: r in rows <==> r in init || r == last by {
        assert rows == init + [last];
      }
      if Selected(last, referenceYear, inReference) && last.paddockId !in IdsOf(kept) {
        IdsOfAppend(kept, last);
      }
    }
  }

  /** No two kept rows share an id. */
  lemma {:induction false} FirstPerIdDistinct(rows: seq<Record>, referenceYear: Option<int>, inReference: bool)
    ensures DistinctIds(FirstPerId(rows, referenceYear, inReference))
  {
    if rows != [] {
      var init := rows[..|rows| - 1];
      var last := rows[|rows| - 1];
      var kept := FirstPerId(init, referenceYear, inReference);
      FirstPerIdDistinct(init, referenceYear, inReference);
      if Selected(last, referenceYear, inReference) && last.paddockId !in IdsOf(kept) {
        forall i, j | 0 <= i < j < |kept + [last]|
          ensures (kept + [last])[i].paddockId != (kept + [last])[j].paddockId
        {
          if j == |kept| {
            assert (kept + [last])[i] in kept;
          }
        }
      }
    }
  }

  /** The last row is kept exactly when it is the first selected row of its id. */
  lemma FirstPerIdLast(rows: seq<Record>, referenceYear: Option<int>, inReference: bool)
    requires rows != []
    ensures var kept := FirstPerId(rows[..|rows| - 1], referenceYear, inReference);
      var last := rows[|rows| - 1];
      (Selected(last, referenceYear, inReference) && last.paddockId !in IdsOf(kept)) <==>
      IsFirstOfId(rows, |rows| - 1, referenceYear, inReference)
  {
    var init := rows[..|rows| - 1];
    var last := rows[|rows| - 1];
    var kept := FirstPerId(init, referenceYear, inReference);
    FirstPerIdIds(init, referenceYear, inReference);
    if Selected(last, referenceYear, inReference) && last.paddockId !in IdsOf(kept) {
      forall j | 0 <= j < |init| && Selected(rows[j], referenceYear, inReference)
        ensures rows[j].paddockId != last.paddockId
      {
        assert rows[j] == init[j] && init[j] in init;
      }
    } else if Selected(last, referenceYear, inReference) {
      var r :| r in init && Selected(r, referenceYear, inReference) && r.paddockId == last.paddockId;
      var j :| 0 <= j < |init| && init[j] == r;
      assert rows[j] == r;
    }
  }

  /** Every first selected row of its id is kept. */
  lemma {:induction false} FirstRowsAreKept(rows: seq<Record>, referenceYear: Option<int>, inReference: bool)
    ensures forall i :: IsFirstOfId(rows, i, referenceYear, inReference) ==>
      rows[i] in FirstPerId(rows, referenceYear, inReference)
  {
    if rows != [] {
      var init := rows[..|rows| - 1];
      var n := |init|;
      FirstRowsAreKept(init, referenceYear, inReference);
      FirstPerIdLast(rows, referenceYear, inReference);
      IsFirstOfIdPrefix(rows, referenceYear, inReference);
      forall i | IsFirstOfId(rows, i, referenceYear, inReference)
        ensures rows[i] in FirstPerId(rows, referenceYear, inReference)
      {
        if i < n {
          assert IsFirstOfId(init, i, referenceYear, inReference);
          assert rows[i] == init[i];
        }
      }
    }
  }

  /** Every kept row is the first selected row of its id. */
  lemma {:induction false} KeptRowsAreFirst(rows: seq<Record>, referenceYear: Option<int>, inReference: bool)
    ensures forall x :: x in FirstPerId(rows, referenceYear, inReference) ==>
      exists i :: IsFirstOfId(rows, i, referenceYear, inReference) && rows[i] == x
  {
    if rows != [] {
      var init := rows[..|rows| - 1];
      var last := rows[|rows| - 1];
      var n := |init|;
      var kept := FirstPerId(init, referenceYear, inReference);
      KeptRowsAreFirst(init, referenceYear, inReference);
      FirstPerIdLast(rows, referenceYear, inReference);
      IsFirstOfIdPrefix(rows, referenceYear, inReference);
      forall x | x in FirstPerId(rows, referenceYear, inReference)
        ensures exists i :: IsFirstOfId(rows, i, referenceYear, inReference) && rows[i] == x
      {
        if x in kept {
          var i :| IsFirstOfId(init, i, referenceYear, inReference) && init[i] == x;
          assert IsFirstOfId(rows, i, referenceYear, inReference) && rows[i] == x;
        } else {
          assert IsFirstOfId(rows, n, referenceYear, inReference) && rows[n] == x;
        }
      }
    }
  }

  // ---------------------------------------------------------------------
  // Reference set: first reference-year row per id, sorted by id
  // ---------------------------------------------------------------------

  function EntryOf(r: Record): ReferencePaddock
  {
    ReferencePaddock(r.paddockId, r.geometry)
  }

  function RefIds(refs: seq<ReferencePaddock>): set<string>
  {
    set e | e in refs :: e.paddockId
  }

  /** Strictly ascending ids, hence one entry per id. */
  predicate SortedById(refs: seq<ReferencePaddock>)
  {
    forall i, j :: 0 <= i < j < |refs| ==> Less(refs[i].paddockId, refs[j].paddockId)
  }

  /** Insertion of an entry into an id-sorted sequence. */
  function Insert(refs: seq<ReferencePaddock>, e: ReferencePaddock): (s: seq<ReferencePaddock>)
    ensures multiset(s) == multiset(refs) + multiset{e}
  {
    if refs == [] then [e]
    else if Less(e.paddockId, refs[0].paddockId) then [e] + refs
    else
      assert refs == [refs[0]] + refs[1..];
      [refs[0]] + Insert(refs[1..], e)
  }

  lemma {:induction false} InsertKeepsSorted(refs: seq<ReferencePaddock>, e: ReferencePaddock)
    requires SortedById(refs) && e.paddockId !in RefIds(refs)
    ensures SortedById(Insert(refs, e))
  {
    if refs == [] {
    } else if Less(e.paddockId, refs[0].paddockId) {
      forall j | 1 <= j < |refs| + 1
        ensures Less(e.paddockId, ([e] + refs)[j].paddockId)
      {
        if j > 1 {
          LessTransitive(e.paddockId, refs[0].paddockId, refs[j - 1].paddockId);
        }
      }
    } else {
      var head := refs[0];
      var tail := refs[1..];
      assert head in refs;
      LessTotal(e.paddockId, head.paddockId);
      assert RefIds(tail) <= RefIds(refs) by {
        forall x | x in RefIds(tail) ensures x in RefIds(refs) {
          var t :| t in tail && t.paddockId == x;
          assert t in refs;
        }
      }
      InsertKeepsSorted(tail, e);
      var ins := Insert(tail, e);
      forall j | 0 <= j < |ins|
        ensures Less(head.paddockId, ins[j].paddockId)
      {
        assert ins[j] in multiset(ins);
        assert ins[j] in tail || ins[j] == e;
        if ins[j] in tail {
          var k :| 0 <= k < |tail| && tail[k] == ins[j];
          assert refs[k + 1] == ins[j];
        }
      }
    }
  }

  /** The entries in id order (insertion sort). */
  function SortById(refs: seq<ReferencePaddock>): (s: seq<ReferencePaddock>)
    ensures multiset(s) == multiset(refs)
  {
    if refs == [] then []
    else
      assert refs == refs[..|refs| - 1] + [refs[|refs| - 1]];
      Insert(SortById(refs[..|refs| - 1]), refs[|refs| - 1])
  }

  lemma {:induction false} SortByIdSorts(refs: seq<ReferencePaddock>)
    requires forall i, j :: 0 <= i < j < |refs| ==> refs[i].paddockId != refs[j].paddockId
    ensures SortedById(SortById(refs))
  {
    if refs != [] {
      var init := refs[..|refs| - 1];
      var last := refs[|refs| - 1];
      SortByIdSorts(init);
      var sorted := SortById(init);
      forall e | e in sorted ensures e.paddockId != last.paddockId {
        assert e in multiset(init);
        var k :| 0 <= k < |init| && init[k] == e;
        assert refs[k] == e;
      }
      InsertKeepsSorted(sorted, last);
    }
  }

  function Entries(rows: seq<Record>): seq<ReferencePaddock>
  {
    if rows == [] then [] else Entries(rows[..|rows| - 1]) + [EntryOf(rows[|rows| - 1])]
  }

  lemma {:induction false} EntriesPointwise(rows: seq<Record>)
    ensures |Entries(rows)| == |rows|
    ensures forall i :: 0 <= i < |rows| ==> Entries(rows)[i] == EntryOf(rows[i])
  {
    if rows != [] {
      EntriesPointwise(rows[..|rows| - 1]);
    }
  }

  /** create_reference_paddocks: the reference-year rows grouped by paddock id,
      in ascending id order, each group represented by its first row. */
  function ReferenceSet(rows: seq<Record>, referenceYear: Option<int>): seq<ReferencePaddock>
  {
    SortById(Entries(FirstPerId(rows, referenceYear, true)))
  }

  /** The entries are those of the rows. */
  lemma EntriesMembers(rows: seq<Record>)
    ensures forall e :: e in Entries(rows) <==> exists r :: r in rows && e == EntryOf(r)
  {
  }

  /** Sorting keeps exactly the entries it is given. */
  lemma SortByIdMembers(refs: seq<ReferencePaddock>)
    ensures forall e :: e in SortById(refs) <==> e in refs
  {
    forall e ensures e in SortById(refs) <==> e in refs {
      assert e in SortById(refs) <==> e in multiset(SortById(refs));
      assert e in refs <==> e in multiset(refs);
    }
  }

  /** The kept rows' entries have distinct ids. */
  lemma EntriesDistinct(kept: seq<Record>)
    requires DistinctIds(kept)
    ensures forall i, j :: 0 <= i < j < |Entries(kept)| ==> Entries(kept)[i].paddockId != Entries(kept)[j].paddockId
  {
    EntriesPointwise(kept);
  }

  /** The reference set is in strictly ascending id order (so one entry per id)
      and holds exactly the ids of the reference-year rows. */
  lemma ReferenceSetSortedIds(rows: seq<Record>, referenceYear: Option<int>)
    ensures SortedById(ReferenceSet(rows, referenceYear))
    ensures RefIds(ReferenceSet(rows, referenceYear)) ==
      set r | r in rows && InReferenceYear(r, referenceYear) :: r.paddockId
  {
    var kept := FirstPerId(rows, referenceYear, true);
    var refs := ReferenceSet(rows, referenceYear);
    FirstPerIdIds(rows, referenceYear, true);
    FirstPerIdDistinct(rows, referenceYear, true);
    EntriesDistinct(kept);
    SortByIdSorts(Entries(kept));
    EntriesMembers(kept);
    SortByIdMembers(Entries(kept));
    forall x ensures x in RefIds(refs) <==> x in IdsOf(kept) {
      if x in RefIds(refs) {
        var e :| e in refs && e.paddockId == x;
        var r :| r in kept && e == EntryOf(r);
      }
      if x in IdsOf(kept) {
        var r :| r in kept && r.paddockId == x;
        assert EntryOf(r) in refs;
      }
    }
  }

  /** Each entry holds the id and geometry of the first reference-year row of
      its id, and every such first row has its entry. */
  lemma ReferenceSetIsFirstRowPerId(rows: seq<Record>, referenceYear: Option<int>)
    ensures forall e :: e in ReferenceSet(rows, referenceYear) <==>
      exists i :: IsFirstOfId(rows, i, referenceYear, true) && e == EntryOf(rows[i])
  {
    var kept := FirstPerId(rows, referenceYear, true);
    var refs := ReferenceSet(rows, referenceYear);
    FirstRowsAreKept(rows, referenceYear, true);
    KeptRowsAreFirst(rows, referenceYear, true);
    EntriesMembers(kept);
    SortByIdMembers(Entries(kept));
    forall e ensures e in refs <==> exists i :: IsFirstOfId(rows, i, referenceYear, true) && e == EntryOf(rows[i]) {
      if e in refs {
        var r :| r in kept && e == EntryOf(r);
        var i :| IsFirstOfId(rows, i, referenceYear, true) && rows[i] == r;
      }
      if exists i :: IsFirstOfId(rows, i, referenceYear, true) && e == EntryOf(rows[i]) {
        var i :| IsFirstOfId(rows, i, referenceYear, true) && e == EntryOf(rows[i]);
        assert rows[i] in kept;
      }
    }
  }

  // ---------------------------------------------------------------------
  // Best spatial match
  // ---------------------------------------------------------------------

  /** The overlap ratio one candidate offers, or None when it is skipped:
      an empty intersection, an exception, or a historical area of zero. */
  function CandidateRatio(geo: GeometryOps, historical: Polygon, candidate: ReferencePaddock): Option<real>
  {
    match geo.intersect(historical, candidate.geometry)
    case EmptyIntersection => None
    case GeometryError => None
    case Overlap(overlapArea) =>
      if geo.area(historical) == 0.0 then None else Some(overlapArea / geo.area(historical))
  }

  /** The scan of find_best_spatial_match over the candidates in order,
      starting from (None, 0) and replacing only on a strictly greater ratio. */
  function BestMatch(geo: GeometryOps, historical: Polygon, refs: seq<ReferencePaddock>): Match
  {
    if refs == [] then Match(None, 0.0)
    else
      var sofar := BestMatch(geo, historical, refs[..|refs| - 1]);
      var last := refs[|refs| - 1];
      var q := CandidateRatio(geo, historical, last);
      if q.Some? && q.value > sofar.ratio then Match(Some(last.paddockId), q.value) else sofar
  }

  /** Candidate k offers ratio q. */
  predicate Offers(geo: GeometryOps, historical: Polygon, refs: seq<ReferencePaddock>, k: int, q: real)
  {
    0 <= k < |refs| && CandidateRatio(geo, historical, refs[k]) == Some(q)
  }

  /** With no candidate above 0 the result is (None, 0). Otherwise the ratio is
      the largest offered, and the id is that of the first candidate offering it. */
  lemma {:induction false} BestMatchIsFirstMaximum(geo: GeometryOps, historical: Polygon, refs: seq<ReferencePaddock>)
    ensures BestMatch(geo, historical, refs).best.None? <==>
      forall k, q :: Offers(geo, historical, refs, k, q) ==> q <= 0.0
    ensures BestMatch(geo, historical, refs).best.None? ==> BestMatch(geo, historical, refs).ratio == 0.0
    ensures BestMatch(geo, historical, refs).best.Some? ==>
      var m := BestMatch(geo, historical, refs);
      m.ratio > 0.0 &&
      (exists k :: Offers(geo, historical, refs, k, m.ratio) && refs[k].paddockId == m.best.value &&
        forall j, q :: 0 <= j < k && Offers(geo, historical, refs, j, q) ==> q < m.ratio) &&
      forall j, q :: Offers(geo, historical, refs, j, q) ==> q <= m.ratio
  {
    if refs != [] {
      var init := refs[..|refs| - 1];
      var last := refs[|refs| - 1];
      BestMatchIsFirstMaximum(geo, historical, init);
      assert forall j, q :: 0 <= j < |init| ==> (Offers(geo, historical, refs, j, q) <==> Offers(geo, historical, init, j, q));
      var sofar := BestMatch(geo, historical, init);
      var m := BestMatch(geo, historical, refs);
      var q := CandidateRatio(geo, historical, last);
      if q.Some? && q.value > sofar.ratio {
        assert Offers(geo, historical, refs, |init|, q.value);
        if sofar.best.None? {
          assert forall j, r :: Offers(geo, historical, refs, j, r) ==> r <= q.value by {
            forall j, r | Offers(geo, historical, refs, j, r) ensures r <= q.value {
              if j < |init| {
                assert Offers(geo, historical, init, j, r);
              }
            }
          }
        }
        assert forall j, r :: 0 <= j < |init| && Offers(geo, historical, refs, j, r) ==> r < m.ratio by {
          forall j, r | 0 <= j < |init| && Offers(geo, historical, refs, j, r) ensures r < m.ratio {
            assert Offers(geo, historical, init, j, r);
          }
        }
      } else {
        assert forall j, r :: Offers(geo, historical, refs, j, r) ==> r <= sofar.ratio || j == |init| by {
          forall j, r | Offers(geo, historical, refs, j, r) && j < |init| ensures r <= sofar.ratio {
            assert Offers(geo, historical, init, j, r);
          }
        }
        if sofar.best.Some? {
          var k :| Offers(geo, historical, init, k, sofar.ratio) && init[k].paddockId == sofar.best.value &&
            forall j, r :: 0 <= j < k && Offers(geo, historical, init, j, r) ==> r < sofar.ratio;
          assert Offers(geo, historical, refs, k, sofar.ratio) && refs[k].paddockId == m.best.value;
          assert forall j, r :: 0 <= j < k && Offers(geo, historical, refs, j, r) ==> r < m.ratio by {
            forall j, r | 0 <= j < k && Offers(geo, historical, refs, j, r) ensures r < m.ratio {
              assert Offers(geo, historical, init, j, r);
            }
          }
        }
      }
    }
  }

  /** The id found is a reference paddock's id. */
  lemma BestMatchIsReference(geo: GeometryOps, historical: Polygon, refs: seq<ReferencePaddock>)
    ensures BestMatch(geo, historical, refs).best.Some? ==>
      BestMatch(geo, historical, refs).best.value in RefIds(refs)
  {
  }

  /** Over an id-sorted reference set, a tie goes to the smallest id attaining the ratio. */
  lemma BestMatchTieGoesToSmallestId(geo: GeometryOps, historical: Polygon, refs: seq<ReferencePaddock>, j: int)
    requires SortedById(refs)
    requires BestMatch(geo, historical, refs).best.Some?
    requires Offers(geo, historical, refs, j, BestMatch(geo, historical, refs).ratio)
    ensures BestMatch(geo, historical, refs).best.value == refs[j].paddockId ||
      Less(BestMatch(geo, historical, refs).best.value, refs[j].paddockId)
  {
    BestMatchIsFirstMaximum(geo, historical, refs);
    var m := BestMatch(geo, historical, refs);
    var k :| Offers(geo, historical, refs, k, m.ratio) && refs[k].paddockId == m.best.value &&
      forall i, q :: 0 <= i < k && Offers(geo, historical, refs, i, q) ==> q < m.ratio;
    assert k <= j;
  }

  // ---------------------------------------------------------------------
  // Mapping
  // ---------------------------------------------------------------------

  /** Python truthiness of best_match: not None and not the empty string. */
  predicate Truthy(best: Option<string>)
  {
    best.Some? && best.value != ""
  }

  /** The id one historical paddock is mapped to: its best match when that is
      truthy and reaches the threshold (inclusive), otherwise itself. */
  function Resolve(geo: GeometryOps, refs: seq<ReferencePaddock>, threshold: real, h: Record): string
  {
    var m := BestMatch(geo, h.geometry, refs);
    if Truthy(m.best) && m.ratio >= threshold then m.best.value else h.paddockId
  }

  /** A historical id is remapped only to a reference paddock that offers the
      largest overlap, at least the threshold and above zero; when the match is
      truthy and reaches the threshold, it is remapped to exactly that paddock. */
  lemma ResolveIsBestOverlap(geo: GeometryOps, refs: seq<ReferencePaddock>, threshold: real, h: Record)
    ensures Resolve(geo, refs, threshold, h) != h.paddockId ==>
      exists k :: Offers(geo, h.geometry, refs, k, BestMatch(geo, h.geometry, refs).ratio) &&
        refs[k].paddockId == Resolve(geo, refs, threshold, h) &&
        BestMatch(geo, h.geometry, refs).ratio >= threshold &&
        BestMatch(geo, h.geometry, refs).ratio > 0.0 &&
        forall j, q :: Offers(geo, h.geometry, refs, j, q) ==> q <= BestMatch(geo, h.geometry, refs).ratio
    ensures Resolve(geo, refs, threshold, h) == h.paddockId || Resolve(geo, refs, threshold, h) in RefIds(refs)
    ensures Truthy(BestMatch(geo, h.geometry, refs).best) && BestMatch(geo, h.geometry, refs).ratio >= threshold ==>
      Resolve(geo, refs, threshold, h) == BestMatch(geo, h.geometry, refs).best.value
    ensures !(Truthy(BestMatch(geo, h.geometry, refs).best) && BestMatch(geo, h.geometry, refs).ratio >= threshold) ==>
      Resolve(geo, refs, threshold, h) == h.paddockId
  {
    BestMatchIsFirstMaximum(geo, h.geometry, refs);
    BestMatchIsReference(geo, h.geometry, refs);
  }

  /** The first loop of create_paddock_mapping, entry by entry. */
  function WriteHistorical(m: map<string, string>, geo: GeometryOps, refs: seq<ReferencePaddock>, threshold: real,
                           hs: seq<Record>): map<string, string>
  {
    if hs == [] then m
    else
      var last := hs[|hs| - 1];
      WriteHistorical(m, geo, refs, threshold, hs[..|hs| - 1])[last.paddockId := Resolve(geo, refs, threshold, last)]
  }

  /** The second loop of create_paddock_mapping: every reference id to itself. */
  function WriteReferences(m: map<string, string>, refs: seq<ReferencePaddock>): map<string, string>
  {
    if refs == [] then m
    else
      var last := refs[|refs| - 1];
      WriteReferences(m, refs[..|refs| - 1])[last.paddockId := last.paddockId]
  }

  /** The distinct historical paddocks: first row per id outside the reference year. */
  function UniqueHistorical(rows: seq<Record>, referenceYear: Option<int>): seq<Record>
  {
    FirstPerId(rows, referenceYear, false)
  }

  /** The mapping after create_paddock_mapping, from the mapping before it. */
  function UpdatedMapping(m: map<string, string>, rows: seq<Record>, referenceYear: Option<int>,
                          refs: seq<ReferencePaddock>, geo: GeometryOps, threshold: real): map<string, string>
  {
    WriteReferences(WriteHistorical(m, geo, refs, threshold, UniqueHistorical(rows, referenceYear)), refs)
  }

  lemma {:induction false} WriteHistoricalEffect(m: map<string, string>, geo: GeometryOps, refs: seq<ReferencePaddock>,
                                                 threshold: real, hs: seq<Record>)
    requires DistinctIds(hs)
    ensures WriteHistorical(m, geo, refs, threshold, hs).Keys == m.Keys + IdsOf(hs)
    ensures forall i :: 0 <= i < |hs| ==>
      WriteHistorical(m, geo, refs, threshold, hs)[hs[i].paddockId] == Resolve(geo, refs, threshold, hs[i])
    ensures forall k :: k in m && k !in IdsOf(hs) ==> WriteHistorical(m, geo, refs, threshold, hs)[k] == m[k]
  {
    if hs != [] {
      var init := hs[..|hs| - 1];
      var last := hs[|hs| - 1];
      assert hs == init + [last];
      IdsOfAppend(init, last);
      WriteHistoricalEffect(m, geo, refs, threshold, init);
      forall i | 0 <= i < |init| ensures init[i].paddockId != last.paddockId {
        assert init[i] == hs[i];
      }
    }
  }

  lemma {:induction false} WriteReferencesEffect(m: map<string, string>, refs: seq<ReferencePaddock>)
    ensures WriteReferences(m, refs).Keys == m.Keys + RefIds(refs)
    ensures forall e :: e in refs ==> WriteReferences(m, refs)[e.paddockId] == e.paddockId
    ensures forall k :: k in m && k !in RefIds(refs) ==> WriteReferences(m, refs)[k] == m[k]
  {
    if refs != [] {
      var init := refs[..|refs| - 1];
      var last := refs[|refs| - 1];
      assert refs == init + [last];
      assert RefIds(refs) == RefIds(init) + {last.paddockId} by {
        assert forall x :: x in refs <==> x in init || x == last;
      }
      WriteReferencesEffect(m, init);
    }
  }

  /** What create_paddock_mapping leaves behind: its keys are the old keys plus
      every historical and every reference id; each reference id maps to itself
      even when it was also remapped as a historical id; every other historical
      id maps to its resolution; each value written is the key itself or a
      reference id; and old entries that were not written survive. */
  lemma UpdatedMappingEffect(m: map<string, string>, rows: seq<Record>, referenceYear: Option<int>,
                             refs: seq<ReferencePaddock>, geo: GeometryOps, threshold: real)
    ensures var u := UpdatedMapping(m, rows, referenceYear, refs, geo, threshold);
      u.Keys == m.Keys + IdsOf(UniqueHistorical(rows, referenceYear)) + RefIds(refs)
    ensures var u := UpdatedMapping(m, rows, referenceYear, refs, geo, threshold);
      forall e :: e in refs ==> u[e.paddockId] == e.paddockId
    ensures var u := UpdatedMapping(m, rows, referenceYear, refs, geo, threshold);
      forall h :: h in UniqueHistorical(rows, referenceYear) && h.paddockId !in RefIds(refs) ==>
        u[h.paddockId] == Resolve(geo, refs, threshold, h)
    ensures var u := UpdatedMapping(m, rows, referenceYear, refs, geo, threshold);
      forall k :: k in IdsOf(UniqueHistorical(rows, referenceYear)) + RefIds(refs) ==>
        u[k] == k || u[k] in RefIds(refs)
    ensures var u := UpdatedMapping(m, rows, referenceYear, refs, geo, threshold);
      forall k :: k in m && k !in IdsOf(UniqueHistorical(rows, referenceYear)) && k !in RefIds(refs) ==>
        u[k] == m[k]
  {
    var hs := UniqueHistorical(rows, referenceYear);
    var w := WriteHistorical(m, geo, refs, threshold, hs);
    var u := UpdatedMapping(m, rows, referenceYear, refs, geo, threshold);
    FirstPerIdDistinct(rows, referenceYear, false);
    WriteHistoricalEffect(m, geo, refs, threshold, hs);
    WriteReferencesEffect(w, refs);
    forall h | h in hs && h.paddockId !in RefIds(refs)
      ensures u[h.paddockId] == Resolve(geo, refs, threshold, h)
    {
      var i :| 0 <= i < |hs| && hs[i] == h;
    }
    forall k | k in IdsOf(hs) + RefIds(refs)
      ensures u[k] == k || u[k] in RefIds(refs)
    {
      if k !in RefIds(refs) {
        var h :| h in hs && h.paddockId == k;
        var i :| 0 <= i < |hs| && hs[i] == h;
        ResolveIsBestOverlap(geo, refs, threshold, h);
      } else {
        var e :| e in refs && e.paddockId == k;
      }
    }
  }

  /** When the reference set was built from the same rows, every paddock id of
      the input is a key of the mapping afterwards. */
  lemma EveryInputIdIsMapped(m: map<string, string>, rows: seq<Record>, referenceYear: Option<int>,
                             geo: GeometryOps, threshold: real)
    ensures var refs := ReferenceSet(rows, referenceYear);
      forall r :: r in rows ==> r.paddockId in UpdatedMapping(m, rows, referenceYear, refs, geo, threshold)
  {
    var refs := ReferenceSet(rows, referenceYear);
    UpdatedMappingEffect(m, rows, referenceYear, refs, geo, threshold);
    ReferenceSetSortedIds(rows, referenceYear);
    FirstPerIdIds(rows, referenceYear, false);
  }

  // ---------------------------------------------------------------------
  // Statistics
  // ---------------------------------------------------------------------

  function SelfMapped(m: map<string, string>): set<string>
  {
    set k | k in m && m[k] == k
  }

  function Remapped(m: map<string, string>): set<string>
  {
    set k | k in m && m[k] != k
  }

  lemma MappingSplits(m: map<string, string>)
    ensures |SelfMapped(m)| + |Remapped(m)| == |m|
  {
    assert SelfMapped(m) + Remapped(m) == m.Keys;
    assert SelfMapped(m) * Remapped(m) == {};
  }

  // ---------------------------------------------------------------------
  // The session object
  // ---------------------------------------------------------------------

  class SpatialMatcher {
    const minOverlapThreshold: real
    var referenceYear: Option<int>
    var referencePaddocks: Option<seq<ReferencePaddock>>
    var paddockMapping: map<string, string>

    constructor(minOverlapThreshold: real)
      ensures this.minOverlapThreshold == minOverlapThreshold
      ensures referenceYear == None && referencePaddocks == None && paddockMapping == map[]
    {
      this.minOverlapThreshold := minOverlapThreshold;
      referenceYear := None;
      referencePaddocks := None;
      paddockMapping := map[];
    }

    /** Stores and returns the latest year of the rows. */
    method DetermineReferenceYear(rows: seq<Record>) returns (year: Option<int>)
      modifies this`referenceYear
      ensures referenceYear == MaxYear(rows) && year == referenceYear
    {
      referenceYear := MaxYear(rows);
      year := referenceYear;
    }

    /** Stores and returns the reference set of the current reference year. */
    method CreateReferencePaddocks(rows: seq<Record>) returns (refs: seq<ReferencePaddock>)
      modifies this`referencePaddocks
      ensures referencePaddocks == Some(ReferenceSet(rows, referenceYear)) && refs == referencePaddocks.value
    {
      refs := ReferenceSet(rows, referenceYear);
      referencePaddocks := Some(refs);
    }

    /** Scans the reference paddocks in order for the largest overlap ratio.
        The id only feeds the warning logged when an intersection fails. */
    method FindBestSpatialMatch(geo: GeometryOps, historicalGeom: Polygon, historicalPaddockId: string)
      returns (bestMatch: Option<string>, maxOverlap: real)
      requires referencePaddocks.Some?
      ensures Match(bestMatch, maxOverlap) == BestMatch(geo, historicalGeom, referencePaddocks.value)
    {
      var refs := referencePaddocks.value;
      maxOverlap := 0.0;
      bestMatch := None;
      var i := 0;
      while i < |refs|
        invariant 0 <= i <= |refs|
        invariant Match(bestMatch, maxOverlap) == BestMatch(geo, historicalGeom, refs[..i])
      {
        var refPaddock := refs[i];
        assert refs[..i + 1][..i] == refs[..i];
        match geo.intersect(historicalGeom, refPaddock.geometry) {
          case EmptyIntersection =>
          case GeometryError =>
          case Overlap(overlapArea) =>
            var historicalArea := geo.area(historicalGeom);
            if historicalArea != 0.0 {
              var overlapRatio := overlapArea / historicalArea;
              if overlapRatio > maxOverlap {
                maxOverlap := overlapRatio;
                bestMatch := Some(refPaddock.paddockId);
              }
            }
        }
        i := i + 1;
      }
      assert refs[..|refs|] == refs;
    }

    /** Maps each distinct historical id, then forces every reference id to
        itself; entries of earlier calls are kept unless overwritten. */
    method CreatePaddockMapping(geo: GeometryOps, rows: seq<Record>) returns (mapping: map<string, string>)
      requires referencePaddocks.Some?
      modifies this`paddockMapping
      ensures paddockMapping == UpdatedMapping(old(paddockMapping), rows, referenceYear,
                                               referencePaddocks.value, geo, minOverlapThreshold)
      ensures mapping == paddockMapping
    {
      MapHistoricalPaddocks(geo, UniqueHistorical(rows, referenceYear));
      MapReferencePaddocks();
      mapping := paddockMapping;
    }

    /** The first loop of create_paddock_mapping: each historical paddock's id
        goes to its best match when that is truthy and reaches the threshold,
        and to itself otherwise. */
    method MapHistoricalPaddocks(geo: GeometryOps, uniqueHistorical: seq<Record>)
      requires referencePaddocks.Some?
      modifies this`paddockMapping
      ensures paddockMapping == WriteHistorical(old(paddockMapping), geo, referencePaddocks.value,
                                                minOverlapThreshold, uniqueHistorical)
    {
      var i := 0;
      while i < |uniqueHistorical|
        invariant 0 <= i <= |uniqueHistorical|
        invariant paddockMapping ==
          WriteHistorical(old(paddockMapping), geo, referencePaddocks.value, minOverlapThreshold, uniqueHistorical[..i])
      {
        var paddock := uniqueHistorical[i];
        assert uniqueHistorical[..i + 1][..i] == uniqueHistorical[..i];
        var bestMatch, overlapRatio := FindBestSpatialMatch(geo, paddock.geometry, paddock.paddockId);
        if Truthy(bestMatch) && overlapRatio >= minOverlapThreshold {
          paddockMapping := paddockMapping[paddock.paddockId := bestMatch.value];
        } else {
          paddockMapping := paddockMapping[paddock.paddockId := paddock.paddockId];
        }
        i := i + 1;
      }
      assert uniqueHistorical[..|uniqueHistorical|] == uniqueHistorical;
    }

    /** The second loop of create_paddock_mapping: every reference id to itself. */
    method MapReferencePaddocks()
      requires referencePaddocks.Some?
      modifies this`paddockMapping
      ensures paddockMapping == WriteReferences(old(paddockMapping), referencePaddocks.value)
    {
      var refs := referencePaddocks.value;
      var j := 0;
      while j < |refs|
        invariant 0 <= j <= |refs|
        invariant paddockMapping == WriteReferences(old(paddockMapping), refs[..j])
      {
        var refPaddockId := refs[j].paddockId;
        assert refs[..j + 1][..j] == refs[..j];
        paddockMapping := paddockMapping[refPaddockId := refPaddockId];
        j := j + 1;
      }
      assert refs[..|refs|] == refs;
    }

    /** Counts of the mapping: identity entries plus remapped entries make up
        the total, and the reference count is 0 before a reference set exists. */
    function GetMappingStats(): (stats: MappingStats)
      reads this
      ensures stats.totalPaddocks == |paddockMapping|
      ensures stats.selfMapped == |SelfMapped(paddockMapping)|
      ensures stats.selfMapped + stats.remapped == stats.totalPaddocks
      ensures stats.remapped == |Remapped(paddockMapping)|
      ensures stats.referenceYear == referenceYear
      ensures referencePaddocks.None? ==> stats.referencePaddocksCount == 0
      ensures referencePaddocks.Some? ==> stats.referencePaddocksCount == |referencePaddocks.value|
    {
      MappingSplits(paddockMapping);
      var totalMapped := |paddockMapping|;
      var selfMapped := |SelfMapped(paddockMapping)|;
      MappingStats(totalMapped, selfMapped, totalMapped - selfMapped, referenceYear,
                   if referencePaddocks.Some? then |referencePaddocks.value| else 0)
    }
  }
}
