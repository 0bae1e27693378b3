/** Finding the dives of a Heinrichs Weikamp OSTC in a dump of its memory: headers are
    searched for from the end, footers from each header on. */
module OstcDives {
  import opened Bytes

  const SZ_HEADER: nat := 266
  const HEADER: seq<byte> := [0xFA, 0xFA]
  const FOOTER: seq<byte> := [0xFD, 0xFD]

  // ---------- Markers ----------

  /** The marker stands at `p`. */
  predicate MarkedAt(data: seq<byte>, p: int, marker: seq<byte>) {
    0 <= p && p + |marker| <= |data| && data[p..p + |marker|] == marker
  }

  /** The first place of a marker between two bounds, or none. */
  predicate IsFirst(data: seq<byte>, lo: nat, hi: nat, marker: seq<byte>, p: int) {
    if p < 0 then forall q | lo <= q && q + |marker| <= hi :: !MarkedAt(data, q, marker)
    else
      && lo <= p && p + |marker| <= hi && MarkedAt(data, p, marker)
      && forall q | lo <= q < p :: !MarkedAt(data, q, marker)
  }

  predicate IsLast(data: seq<byte>, lo: nat, hi: nat, marker: seq<byte>, p: int) {
    if p < 0 then forall q | lo <= q && q + |marker| <= hi :: !MarkedAt(data, q, marker)
    else
      && lo <= p && p + |marker| <= hi && MarkedAt(data, p, marker)
      && forall q | p < q && q + |marker| <= hi :: !MarkedAt(data, q, marker)
  }

  function First(data: seq<byte>, lo: nat, hi: nat, marker: seq<byte>): (p: int)
    requires marker != []
    ensures IsFirst(data, lo, hi, marker, p)
    decreases hi - lo
  {
    if lo + |marker| > hi then -1
    else if MarkedAt(data, lo, marker) then lo
    else First(data, lo + 1, hi, marker)
  }

  function Last(data: seq<byte>, lo: nat, hi: nat, marker: seq<byte>): (p: int)
    requires marker != []
    ensures IsLast(data, lo, hi, marker, p)
    decreases hi
  {
    if lo + |marker| > hi then -1
    else if MarkedAt(data, hi - |marker|, marker) then hi - |marker|
    else Last(data, lo, hi - 1, marker)
  }

  method SearchForward(data: seq<byte>, lo: nat, hi: nat, marker: seq<byte>) returns (p: int)
    requires lo <= hi <= |data| && marker != []
    ensures p == First(data, lo, hi, marker)
  {
    p := lo;
    while p + |marker| <= hi
      invariant lo <= p <= hi && First(data, lo, hi, marker) == First(data, p, hi, marker)
    {
      if data[p..p + |marker|] == marker {
        return;
      }
      p := p + 1;
    }
    p := -1;
  }

  method SearchBackward(data: seq<byte>, lo: nat, hi: nat, marker: seq<byte>) returns (p: int)
    requires lo <= hi <= |data| && marker != []
    ensures p == Last(data, lo, hi, marker)
  {
    var end := hi;
    while lo + |marker| <= end
      invariant lo <= end <= hi && Last(data, lo, hi, marker) == Last(data, lo, end, marker)
    {
      if data[end - |marker|..end] == marker {
        return end - |marker|;
      }
      end := end - 1;
    }
    p := -1;
  }

  // ---------- Dives ----------

  datatype Dive = Dive(start: nat, end: nat)

  /** The headers that are visited, from the end of the data down. */
  function Headers(data: seq<byte>, limit: nat): (hs: seq<nat>)
    decreases limit
  {
    var p := Last(data, SZ_HEADER, limit, HEADER);
    if p < 0 then [] else [p] + Headers(data, p)
  }

  /** The dive that begins at a header, if it ends before `previous`. */
  function DiveAt(data: seq<byte>, start: nat, previous: nat): seq<Dive> {
    var f := First(data, start, previous, FOOTER);
    if f < 0 then [] else [Dive(start, f + |FOOTER|)]
  }

  function Dives(data: seq<byte>, limit: nat): (ds: seq<Dive>)
    decreases limit
  {
    var p := Last(data, SZ_HEADER, limit, HEADER);
    if p < 0 then [] else DiveAt(data, p, limit) + Dives(data, p)
  }

  /** The visited headers are a greedy choice from the right: each is the last one that
      ends before the next, and none is left over in front. */
  ghost predicate Greedy(data: seq<byte>, hs: seq<nat>, limit: nat) {
    && (forall i | 0 <= i < |hs| :: IsLast(data, SZ_HEADER, Bound(hs, i, limit), HEADER, hs[i]))
    && IsLast(data, SZ_HEADER, Bound(hs, |hs|, limit), HEADER, -1)
  }

  function Bound(hs: seq<nat>, i: nat, limit: nat): nat
    requires i <= |hs|
  {
    if i == 0 then limit else hs[i - 1]
  }

  lemma {:induction false} HeadersAreGreedy(data: seq<byte>, limit: nat)
    ensures Greedy(data, Headers(data, limit), limit)
    decreases limit
  {
    hide Last, IsLast;
    var p := Last(data, SZ_HEADER, limit, HEADER);
    if p >= 0 {
      LastFits(data, limit, p);
      HeadersAreGreedy(data, p);
      var hs, rest := Headers(data, limit), Headers(data, p);
      forall i | 0 <= i < |hs|
        ensures IsLast(data, SZ_HEADER, Bound(hs, i, limit), HEADER, hs[i])
      {
        if i > 0 {
          assert hs[i] == rest[i - 1] && Bound(hs, i, limit) == Bound(rest, i - 1, p);
        }
      }
      assert Bound(hs, |hs|, limit) == Bound(rest, |rest|, p);
    } else {
      NoneLeft(data, limit, p);
    }
  }

  lemma LastFits(data: seq<byte>, limit: nat, p: int)
    requires p == Last(data, SZ_HEADER, limit, HEADER) && p >= 0
    ensures p < limit
  {
  }

  lemma NoneLeft(data: seq<byte>, limit: nat, p: int)
    requires p == Last(data, SZ_HEADER, limit, HEADER) && p < 0
    ensures IsLast(data, SZ_HEADER, limit, HEADER, -1)
  {
  }

  /** A dive begins at a visited header and runs to the end of the first footer after it,
      which comes before the header that was visited last. */
  ghost predicate Proper(data: seq<byte>, d: Dive, hs: seq<nat>, limit: nat, i: nat)
    requires i < |hs|
  {
    && d.start == hs[i] && d.start + |HEADER| <= d.end <= Bound(hs, i, limit)
    && IsFirst(data, hs[i], Bound(hs, i, limit), FOOTER, d.end - |FOOTER|)
  }

  lemma DiveIsProper(data: seq<byte>, limit: nat, hs: seq<nat>, d: Dive)
    requires hs != [] && hs[0] == Last(data, SZ_HEADER, limit, HEADER)
    ensures d in DiveAt(data, hs[0], limit) <==> Proper(data, d, hs, limit, 0)
  {
    var f := First(data, hs[0], limit, FOOTER);
    if MarkedAt(data, hs[0], HEADER) && f >= 0 {
      MarkersApart(data, hs[0], f);
    }
  }

  /** A footer does not begin inside a header. */
  lemma MarkersApart(data: seq<byte>, h: nat, f: nat)
    requires MarkedAt(data, h, HEADER) && MarkedAt(data, f, FOOTER) && h <= f
    ensures f >= h + 2
  {
    assert data[h..h + 2][0] == 0xFA && data[h..h + 2][1] == 0xFA && data[f..f + 2][0] == 0xFD;
  }

  /** The dive is that of one of the visited headers. */
  ghost predicate ProperSomewhere(data: seq<byte>, d: Dive, hs: seq<nat>, limit: nat) {
    exists i | 0 <= i < |hs| :: Proper(data, d, hs, limit, i)
  }

  lemma ProperFurther(data: seq<byte>, d: Dive, rest: seq<nat>, p: nat, limit: nat, i: nat)
    requires i < |rest|
    ensures Proper(data, d, rest, p, i) <==> Proper(data, d, [p] + rest, limit, i + 1)
  {
    hide IsFirst;
    assert ([p] + rest)[i + 1] == rest[i] && Bound([p] + rest, i + 1, limit) == Bound(rest, i, p);
  }

  lemma ProperHereOrLater(data: seq<byte>, d: Dive, rest: seq<nat>, p: nat, limit: nat)
    ensures ProperSomewhere(data, d, [p] + rest, limit)
       <==> Proper(data, d, [p] + rest, limit, 0) || ProperSomewhere(data, d, rest, p)
  {
    hide Proper;
    forall i | 0 <= i < |rest|
      ensures Proper(data, d, rest, p, i) <==> Proper(data, d, [p] + rest, limit, i + 1)
    {
      ProperFurther(data, d, rest, p, limit, i);
    }
    if ProperSomewhere(data, d, [p] + rest, limit) {
      var i :| 0 <= i < |[p] + rest| && Proper(data, d, [p] + rest, limit, i);
      if i > 0 {
        assert Proper(data, d, rest, p, i - 1);
      }
    }
  }

  /** The dives are exactly the proper ones, of any visited header. */
  lemma {:induction false} DivesAreProper(data: seq<byte>, limit: nat, d: Dive)
    ensures d in Dives(data, limit) <==> ProperSomewhere(data, d, Headers(data, limit), limit)
    decreases limit
  {
    hide Last, IsLast, DiveAt, Proper, ProperSomewhere;
    var p := Last(data, SZ_HEADER, limit, HEADER);
    if p >= 0 {
      LastFits(data, limit, p);
      DiveIsProper(data, limit, Headers(data, limit), d);
      DivesAreProper(data, p, d);
      ProperHereOrLater(data, d, Headers(data, p), p, limit);
    } else {
      NoneProper(data, d, limit);
    }
  }

  lemma NoneProper(data: seq<byte>, d: Dive, limit: nat)
    ensures !ProperSomewhere(data, d, [], limit)
  {
  }

  /** Dives come from the end of the data down, and do not overlap. */
  lemma {:induction false} DivesAreDisjoint(data: seq<byte>, limit: nat)
    requires limit <= |data|
    ensures forall i | 0 <= i < |Dives(data, limit)| ::
              SZ_HEADER <= Dives(data, limit)[i].start < Dives(data, limit)[i].end <= limit
    ensures forall i, j | 0 <= i < j < |Dives(data, limit)| ::
              Dives(data, limit)[j].end <= Dives(data, limit)[i].start
    decreases limit
  {
    hide IsFirst, IsLast;
    var p := Last(data, SZ_HEADER, limit, HEADER);
    if p >= 0 {
      LastFits(data, limit, p);
      DivesAreDisjoint(data, p);
      DiveFits(data, limit, p);
    }
  }

  lemma DiveFits(data: seq<byte>, limit: nat, p: nat)
    requires p == Last(data, SZ_HEADER, limit, HEADER)
    ensures SZ_HEADER <= p
    ensures forall i | 0 <= i < |DiveAt(data, p, limit)| ::
              DiveAt(data, p, limit)[i].start == p < DiveAt(data, p, limit)[i].end <= limit
  {
  }

  // ---------- Reporting ----------

  /** The dives that are reported: up to one that is known already, and as long as more are
      wanted. */
  function Told(ds: seq<Dive>, known: Dive -> bool, more: Dive -> bool): seq<Dive> {
    if ds == [] || known(ds[0]) then []
    else if !more(ds[0]) then [ds[0]]
    else [ds[0]] + Told(ds[1..], known, more)
  }

  /** Reports the dives in a dump. */
  method ExtractDives(data: seq<byte>, known: Dive -> bool, more: Dive -> bool) returns (told: seq<Dive>)
    requires |data| >= SZ_HEADER
    ensures told == Told(Dives(data, |data|), known, more)
  {
    hide First, Last, IsFirst, IsLast, Told, Dives;
    var current: int, previous := |data|, |data|;
    told := [];
    while true
      invariant SZ_HEADER <= current == previous <= |data|
      invariant told + Told(Dives(data, current), known, more) == Told(Dives(data, |data|), known, more)
      decreases current
    {
      LastInRange(data, current);
      ToldStep(data, current, known, more);
      current := SearchBackward(data, SZ_HEADER, current, HEADER);
      if current < 0 {
        break;
      }
      var f := SearchForward(data, current, previous, FOOTER);
      if f >= 0 {
        var dive := Dive(current, f + |FOOTER|);
        if known(dive) {
          break;
        }
        told := told + [dive];
        if !more(dive) {
          break;
        }
      }
      previous := current;
    }
  }

  lemma LastInRange(data: seq<byte>, limit: nat)
    ensures var p := Last(data, SZ_HEADER, limit, HEADER); p >= 0 ==> SZ_HEADER <= p < limit
  {
  }

  lemma ToldStep(data: seq<byte>, limit: nat, known: Dive -> bool, more: Dive -> bool)
    ensures var p := Last(data, SZ_HEADER, limit, HEADER);
      if p < 0 then Told(Dives(data, limit), known, more) == []
      else
        var f := First(data, p, limit, FOOTER);
        var rest := Told(Dives(data, p), known, more);
        Told(Dives(data, limit), known, more) == (
          if f < 0 then rest
          else
            var dive := Dive(p, f + |FOOTER|);
            if known(dive) then [] else if !more(dive) then [dive] else [dive] + rest)
  {
    hide First, IsFirst, IsLast;
    var p := Last(data, SZ_HEADER, limit, HEADER);
    if p >= 0 {
      LastFits(data, limit, p);
      var first, later := DiveAt(data, p, limit), Dives(data, p);
      if first == [] {
        assert first + later == later;
      } else {
        assert (first + later)[1..] == later;
      }
    }
  }
}
