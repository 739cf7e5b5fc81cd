/** The computations of streamlit_app.py around its widgets: the sidebar
    filters, the at-a-glance capacity figures, the peer list typed by the
    user and the RTT column view. Dates are whole seconds; a chosen day is
    the second its midnight falls on. */
module Dashboard {
  import opened Wrappers
  import opened Seqs
  import opened Text
  import opened Tables

  const All: string := "All"
  const SiteColumn: string := "site"
  const SecondsPerDay: int := 86400

  /** One row of the operational extracts, with the fields the filters and
      the at-a-glance figures read. */
  datatype Rec = Rec(date: int, site: string, division: string, arrivals: int, beds: int, occupied: int, discharges: int)

  /** A loaded extract: its header and its rows. */
  datatype Frame = Frame(columns: set<string>, rows: seq<Rec>)

  // ---------------------------------------------------------------------
  // Sidebar filters
  // ---------------------------------------------------------------------

  /** The last second of the chosen last day: a row stamped at that
      midnight or later is at most the end exactly when it falls before the
      next midnight. */
  function WindowEnd(lastDay: int): (e: int)
    ensures forall r: Rec :: lastDay <= r.date ==> (r.date <= e <==> r.date < lastDay + SecondsPerDay)
  {
    lastDay + SecondsPerDay - 1
  }

  predicate InWindow(r: Rec, start: int, end: int)
  {
    start <= r.date <= end
  }

  function DateFilter(start: int, end: int): Rec -> bool
  {
    (r: Rec) => InWindow(r, start, end)
  }

  function SiteIs(site: string): Rec -> bool
  {
    (r: Rec) => r.site == site
  }

  function DivisionIs(division: string): Rec -> bool
  {
    (r: Rec) => r.division == division
  }

  function Restrict(f: Frame, p: Rec -> bool): (g: Frame)
    ensures g.columns == f.columns
  {
    Frame(f.columns, Filter(f.rows, p))
  }

  /** The row the inpatient view keeps, as one condition. */
  predicate KeepInpatient(r: Rec, start: int, end: int, site: string, division: string)
  {
    && InWindow(r, start, end)
    && (site != All ==> r.site == site)
    && (division != All ==> r.division == division)
  }

  /** The row the ED view keeps: the site only counts when the extract has a
      site column. */
  predicate KeepEd(r: Rec, start: int, end: int, site: string, siteKnown: bool)
  {
    InWindow(r, start, end) && (site != All && siteKnown ==> r.site == site)
  }

  /** Filtering by one condition after another keeps what both keep. */
  lemma {:induction false} FilterTwice(s: seq<Rec>, p: Rec -> bool, q: Rec -> bool, pq: Rec -> bool)
    requires forall r :: pq(r) == (p(r) && q(r))
    ensures Filter(Filter(s, p), q) == Filter(s, pq)
    decreases |s|
  {
    if |s| > 0 {
      FilterTwice(s[1..], p, q, pq);
    }
  }

  /** Lines 40-52: the window from the first chosen midnight to the end of
      the last chosen day on every extract, then the site and the division
      on the inpatients, and the site on ED only when it has that column. */
  method ApplyFilters(ed: Frame, amb: Frame, ip: Frame, th: Frame, wl: Frame, firstDay: int, lastDay: int, site: string, division: string)
    returns (edf: Frame, ambf: Frame, ipf: Frame, thf: Frame, wlf: Frame)
    ensures edf.columns == ed.columns && ambf.columns == amb.columns && ipf.columns == ip.columns
    ensures thf.columns == th.columns && wlf.columns == wl.columns
    ensures ipf.rows == Filter(ip.rows, (r: Rec) => KeepInpatient(r, firstDay, WindowEnd(lastDay), site, division))
    ensures edf.rows == Filter(ed.rows, (r: Rec) => KeepEd(r, firstDay, WindowEnd(lastDay), site, SiteColumn in ed.columns))
    ensures ambf.rows == Filter(amb.rows, DateFilter(firstDay, WindowEnd(lastDay)))
    ensures thf.rows == Filter(th.rows, DateFilter(firstDay, WindowEnd(lastDay)))
    ensures wlf.rows == Filter(wl.rows, DateFilter(firstDay, WindowEnd(lastDay)))
  {
    var start, end := firstDay, WindowEnd(lastDay);
    edf := Restrict(ed, DateFilter(start, end));
    ambf := Restrict(amb, DateFilter(start, end));
    ipf := Restrict(ip, DateFilter(start, end));
    thf := Restrict(th, DateFilter(start, end));
    wlf := Restrict(wl, DateFilter(start, end));

    ghost var edKeep := (r: Rec) => KeepEd(r, start, end, site, SiteColumn in ed.columns);
    ghost var ipSite := (r: Rec) => InWindow(r, start, end) && (site != All ==> r.site == site);
    if site != All {
      if SiteColumn in edf.columns {
        FilterTwice(ed.rows, DateFilter(start, end), SiteIs(site), edKeep);
        edf := Restrict(edf, SiteIs(site));
      } else {
        FilterAll(edf.rows, edKeep);
        FilterTwice(ed.rows, DateFilter(start, end), edKeep, edKeep);
      }
      FilterTwice(ip.rows, DateFilter(start, end), SiteIs(site), ipSite);
      ipf := Restrict(ipf, SiteIs(site));
    } else {
      FilterTwice(ed.rows, DateFilter(start, end), edKeep, edKeep);
      FilterAll(edf.rows, edKeep);
      FilterTwice(ip.rows, DateFilter(start, end), ipSite, ipSite);
      FilterAll(ipf.rows, ipSite);
    }
    assert ipf.rows == Filter(ip.rows, ipSite);

    ghost var ipKeep := (r: Rec) => KeepInpatient(r, start, end, site, division);
    if division != All {
      FilterTwice(ip.rows, ipSite, DivisionIs(division), ipKeep);
      ipf := Restrict(ipf, DivisionIs(division));
    } else {
      FilterTwice(ip.rows, ipSite, ipKeep, ipKeep);
      FilterAll(ipf.rows, ipKeep);
    }
  }

  /** The inpatient view keeps exactly the rows inside the window that match
      the chosen site and division, every copy of them, in their order. */
  lemma InpatientFilterExact(ip: seq<Rec>, start: int, end: int, site: string, division: string, r: Rec)
    ensures var kept := Filter(ip, (x: Rec) => KeepInpatient(x, start, end, site, division));
      && (r in kept <==> r in ip && KeepInpatient(r, start, end, site, division))
      && multiset(kept)[r] == (if KeepInpatient(r, start, end, site, division) then multiset(ip)[r] else 0)
      && IsSubsequence(kept, ip)
  {
    var keep := (x: Rec) => KeepInpatient(x, start, end, site, division);
    FilterMembers(ip, keep);
    FilterCount(ip, keep, r);
    FilterIsSubsequence(ip, keep);
  }

  /** With "All" chosen for both, only the date window applies. */
  lemma AllKeepsWindow(ip: seq<Rec>, start: int, end: int)
    ensures Filter(ip, (x: Rec) => KeepInpatient(x, start, end, All, All)) == Filter(ip, DateFilter(start, end))
  {
    FilterTwice(ip, DateFilter(start, end), (x: Rec) => true, (x: Rec) => KeepInpatient(x, start, end, All, All));
    FilterAll(Filter(ip, DateFilter(start, end)), (x: Rec) => true);
  }

  /** A row stamped any second of the chosen last day is inside the window;
      the next midnight is not. */
  lemma LastDayIncluded(r: Rec, firstDay: int, lastDay: int)
    requires firstDay <= lastDay
    ensures lastDay <= r.date < lastDay + SecondsPerDay ==> InWindow(r, firstDay, WindowEnd(lastDay))
    ensures r.date == lastDay + SecondsPerDay ==> !InWindow(r, firstDay, WindowEnd(lastDay))
  {
  }

  // ---------------------------------------------------------------------
  // safe_div, capacity_gap, the admissions estimate
  // ---------------------------------------------------------------------

  /** `safe_div(a, b)`: 0 for a zero divisor, the quotient otherwise. */
  function SafeDiv(a: real, b: real): (r: real)
    ensures b == 0.0 ==> r == 0.0
    ensures b != 0.0 ==> r * b == a
  {
    if b != 0.0 then a / b else 0.0
  }

  function Sum(xs: seq<int>): int
    decreases |xs|
  {
    if |xs| == 0 then 0 else Sum(xs[..|xs| - 1]) + xs[|xs| - 1]
  }

  lemma {:induction false} SumAppend(a: seq<int>, b: seq<int>)
    ensures Sum(a + b) == Sum(a) + Sum(b)
    decreases |b|
  {
    if |b| > 0 {
      assert (a + b)[..|a + b| - 1] == a + b[..|b| - 1];
      SumAppend(a, b[..|b| - 1]);
    } else {
      assert a + b == a;
    }
  }

  /** Every term non-negative: so is the sum (beds and occupied counts). */
  lemma {:induction false} SumNonNegative(xs: seq<int>)
    requires forall k :: 0 <= k < |xs| ==> xs[k] >= 0
    ensures Sum(xs) >= 0
    decreases |xs|
  {
    if |xs| > 0 {
      SumNonNegative(xs[..|xs| - 1]);
    }
  }

  function BedsOf(r: Rec): int { r.beds }
  function OccupiedOf(r: Rec): int { r.occupied }
  function ArrivalsOf(r: Rec): int { r.arrivals }
  function DischargesOf(r: Rec): int { r.discharges }

  function Beds(rows: seq<Rec>): seq<int> { Map(rows, BedsOf) }
  function Occupied(rows: seq<Rec>): seq<int> { Map(rows, OccupiedOf) }
  function Arrivals(rows: seq<Rec>): seq<int> { Map(rows, ArrivalsOf) }
  function Discharges(rows: seq<Rec>): seq<int> { Map(rows, DischargesOf) }

  datatype Capacity = Capacity(gap: real, beds: int, occ: int, target: real)

  /** The beds short of the occupancy target once the expected admissions
      and planned discharges are counted; never negative. */
  function Shortfall(occ: int, admits: int, discharges: int, target: real): (gap: real)
    ensures gap >= 0.0
    ensures gap == 0.0 <==> (occ + admits - discharges) as real <= target
    ensures gap > 0.0 ==> gap == (occ + admits - discharges) as real - target
  {
    var excess := (occ + admits - discharges) as real - target;
    if 0.0 >= excess then 0.0 else excess
  }

  /** `capacity_gap`: beds and occupied summed over the day's rows, the
      target as that share of the beds, and the shortfall against it. */
  function CapacityGap(ipDay: seq<Rec>, pct: int, admits: int, discharges: int): (c: Capacity)
    ensures c.beds == Sum(Beds(ipDay)) && c.occ == Sum(Occupied(ipDay))
    ensures c.target * 100.0 == (c.beds * pct) as real
    ensures c.gap == Shortfall(c.occ, admits, discharges, c.target)
  {
    var beds := Sum(Beds(ipDay));
    var occ := Sum(Occupied(ipDay));
    var target := (beds * pct) as real / 100.0;
    Capacity(Shortfall(occ, admits, discharges, target), beds, occ, target)
  }

  /** More expected admissions never lower the gap; more planned
      discharges never raise it. */
  lemma GapMonotone(ipDay: seq<Rec>, pct: int, a1: int, a2: int, d1: int, d2: int)
    requires a1 <= a2 && d2 <= d1
    ensures CapacityGap(ipDay, pct, a1, d1).gap <= CapacityGap(ipDay, pct, a2, d2).gap
  {
  }

  /** A higher occupancy target never raises the gap, once there are beds. */
  lemma GapFallsWithTarget(ipDay: seq<Rec>, p1: int, p2: int, admits: int, discharges: int)
    requires p1 <= p2
    requires forall k :: 0 <= k < |ipDay| ==> ipDay[k].beds >= 0
    ensures CapacityGap(ipDay, p2, admits, discharges).gap <= CapacityGap(ipDay, p1, admits, discharges).gap
  {
    var beds := Sum(Beds(ipDay));
    forall k | 0 <= k < |Beds(ipDay)|
      ensures Beds(ipDay)[k] >= 0
    {
      assert Beds(ipDay)[k] == BedsOf(ipDay[k]);
    }
    SumNonNegative(Beds(ipDay));
    assert beds * p1 <= beds * p2 by {
      assert beds * p2 - beds * p1 == beds * (p2 - p1);
    }
  }

  /** `int(x)` of a number: truncation toward zero. */
  function Truncate100(n: int): (r: int)
    ensures n >= 0 ==> 100 * r <= n < 100 * (r + 1)
    ensures n < 0 ==> 100 * (r - 1) < n <= 100 * r
  {
    if n >= 0 then n / 100 else -((-n) / 100)
  }

  /** `int(todays_arrivals * (admit_conv/100))` over exact numbers: the
      admissions expected from the day's arrivals. */
  function AdmitsEstimate(arrivals: int, conv: int): (r: int)
    ensures arrivals >= 0 && conv >= 0 ==> 0 <= 100 * r <= arrivals * conv < 100 * (r + 1)
  {
    Truncate100(arrivals * conv)
  }

  /** The estimate never exceeds the arrivals for a share of at most 100%. */
  lemma AdmitsAtMostArrivals(arrivals: int, conv: int)
    requires arrivals >= 0 && 0 <= conv <= 100
    ensures 0 <= AdmitsEstimate(arrivals, conv) <= arrivals
  {
    assert arrivals * conv <= arrivals * 100;
  }

  /** The estimate grows with the conversion share. */
  lemma AdmitsMonotone(arrivals: int, c1: int, c2: int)
    requires arrivals >= 0 && 0 <= c1 <= c2
    ensures AdmitsEstimate(arrivals, c1) <= AdmitsEstimate(arrivals, c2)
  {
    assert arrivals * c1 <= arrivals * c2 by {
      assert arrivals * c2 - arrivals * c1 == arrivals * (c2 - c1);
    }
  }

  // ---------------------------------------------------------------------
  // At a glance (lines 81-89)
  // ---------------------------------------------------------------------

  /** The latest date among the rows, if any. */
  function LastDate(rows: seq<Rec>): (d: Option<int>)
    ensures d.None? <==> |rows| == 0
    ensures d.Some? ==> (exists k :: 0 <= k < |rows| && rows[k].date == d.value) && forall k :: 0 <= k < |rows| ==> rows[k].date <= d.value
    decreases |rows|
  {
    if |rows| == 0 then None
    else
      var rest := LastDate(rows[..|rows| - 1]);
      var last := rows[|rows| - 1].date;
      if rest.Some? && rest.value >= last then rest else Some(last)
  }

  function OnDate(d: Option<int>): Rec -> bool
  {
    (r: Rec) => d.Some? && r.date == d.value
  }

  datatype Glance = Glance(arrivals: int, admits: int, discharges: int, capacity: Capacity)

  /** The day of the latest inpatient row: ED arrivals and inpatient
      discharges on it, the admissions estimate, and the capacity gap. No
      inpatient rows means no day, and every figure is zero. The gap is
      never negative, and for a share of at most 100% over non-negative
      arrival counts the estimate lies between zero and the arrivals. */
  function AtAGlance(edf: Frame, ipf: Frame, pct: int, conv: int): (g: Glance)
    ensures var day := LastDate(ipf.rows);
      && g.arrivals == Sum(Arrivals(Filter(edf.rows, OnDate(day))))
      && g.discharges == Sum(Discharges(Filter(ipf.rows, OnDate(day))))
      && g.admits == AdmitsEstimate(g.arrivals, conv)
      && g.capacity == CapacityGap(Filter(ipf.rows, OnDate(day)), pct, g.admits, g.discharges)
    ensures g.capacity.gap >= 0.0
    ensures (0 <= conv <= 100 && forall k :: 0 <= k < |edf.rows| ==> edf.rows[k].arrivals >= 0) ==>
      0 <= g.admits <= g.arrivals
  {
    var day := LastDate(ipf.rows);
    var ipDay := Filter(ipf.rows, OnDate(day));
    var edDay := Filter(edf.rows, OnDate(day));
    var arrivals := Sum(Arrivals(edDay));
    var admits := AdmitsEstimate(arrivals, conv);
    var discharges := Sum(Discharges(ipDay));
    DayAdmitsBounded(edf.rows, day, conv);
    Glance(arrivals, admits, discharges, CapacityGap(ipDay, pct, admits, discharges))
  }

  /** The estimate from one day's arrivals lies between zero and them. */
  lemma DayAdmitsBounded(rows: seq<Rec>, day: Option<int>, conv: int)
    ensures var a := Sum(Arrivals(Filter(rows, OnDate(day))));
      (0 <= conv <= 100 && forall k :: 0 <= k < |rows| ==> rows[k].arrivals >= 0) ==> 0 <= AdmitsEstimate(a, conv) <= a
  {
    var dayRows := Filter(rows, OnDate(day));
    if 0 <= conv <= 100 && forall k :: 0 <= k < |rows| ==> rows[k].arrivals >= 0 {
      forall k | 0 <= k < |Arrivals(dayRows)|
        ensures Arrivals(dayRows)[k] >= 0
      {
        assert dayRows[k] in rows;
        var i :| 0 <= i < |rows| && rows[i] == dayRows[k];
        assert Arrivals(dayRows)[k] == ArrivalsOf(rows[i]);
      }
      SumNonNegative(Arrivals(dayRows));
      AdmitsAtMostArrivals(Sum(Arrivals(dayRows)), conv);
    }
  }

  /** The total of one field over the rows dated `d`. */
  function SumOn(rows: seq<Rec>, d: int, f: Rec -> int): int
    decreases |rows|
  {
    if |rows| == 0 then 0
    else (if rows[0].date == d then f(rows[0]) else 0) + SumOn(rows[1..], d, f)
  }

  /** Selecting the rows of day `d` and summing a field gives that day's total. */
  lemma {:induction false} SumOnDay(rows: seq<Rec>, d: int, f: Rec -> int)
    ensures Sum(Map(Filter(rows, OnDate(Some(d))), f)) == SumOn(rows, d, f)
    decreases |rows|
  {
    if |rows| > 0 {
      SumOnDay(rows[1..], d, f);
      var rest := Filter(rows[1..], OnDate(Some(d)));
      if rows[0].date == d {
        assert Map([rows[0]] + rest, f) == [f(rows[0])] + Map(rest, f);
        SumAppend([f(rows[0])], Map(rest, f));
        assert Sum([f(rows[0])]) == f(rows[0]) by {
          assert [f(rows[0])][..0] == [];
        }
      }
    }
  }

  /** The latest inpatient date is the day every figure is taken on: given
      any date of an inpatient row that no inpatient row passes, the ED
      arrivals and the inpatient discharges, beds and occupied counts are
      exactly the totals over the rows of that date. */
  lemma GlanceLatestDay(edf: Frame, ipf: Frame, pct: int, conv: int, d: int)
    requires exists k :: 0 <= k < |ipf.rows| && ipf.rows[k].date == d
    requires forall k :: 0 <= k < |ipf.rows| ==> ipf.rows[k].date <= d
    ensures var g := AtAGlance(edf, ipf, pct, conv);
      && g.arrivals == SumOn(edf.rows, d, ArrivalsOf)
      && g.discharges == SumOn(ipf.rows, d, DischargesOf)
      && g.capacity.beds == SumOn(ipf.rows, d, BedsOf)
      && g.capacity.occ == SumOn(ipf.rows, d, OccupiedOf)
      && g.admits == AdmitsEstimate(g.arrivals, conv)
  {
    var last := LastDate(ipf.rows);
    var k :| 0 <= k < |ipf.rows| && ipf.rows[k].date == d;
    var j :| 0 <= j < |ipf.rows| && ipf.rows[j].date == last.value;
    assert last == Some(d);
    SumOnDay(edf.rows, d, ArrivalsOf);
    SumOnDay(ipf.rows, d, DischargesOf);
    SumOnDay(ipf.rows, d, BedsOf);
    SumOnDay(ipf.rows, d, OccupiedOf);
  }

  /** An empty inpatient view shows no arrivals, no discharges and no gap. */
  lemma EmptyViewIsQuiet(edf: Frame, ipf: Frame, pct: int, conv: int)
    requires |ipf.rows| == 0
    ensures var g := AtAGlance(edf, ipf, pct, conv);
      g.arrivals == 0 && g.discharges == 0 && g.admits == 0 && g.capacity.gap == 0.0
  {
    FilterNone(edf.rows, OnDate(None));
  }

  // ---------------------------------------------------------------------
  // Peer list and RTT view
  // ---------------------------------------------------------------------

  function NonEmpty(s: string): bool { |s| > 0 }

  /** `[p.strip() for p in text.split(",") if p.strip()]`: every non-empty
      stripped piece, each as often as it occurs and in order; no empty or
      padded token and no comma. */
  function ParsePeers(text: string): (peers: seq<string>)
    ensures forall k :: 0 <= k < |peers| ==> |peers[k]| > 0 && Trimmed(peers[k]) && ',' !in peers[k]
    ensures forall p :: p in peers <==> p in Map(Split(text, ','), Strip) && |p| > 0
    ensures forall p :: multiset(peers)[p] == if |p| > 0 then multiset(Map(Split(text, ','), Strip))[p] else 0
    ensures IsSubsequence(peers, Map(Split(text, ','), Strip))
  {
    ParsedPieces(Map(Split(text, ','), Strip), Split(text, ','));
    Filter(Map(Split(text, ','), Strip), NonEmpty)
  }

  /** The non-empty pieces among stripped comma-free pieces. */
  lemma ParsedPieces(pieces: seq<string>, raw: seq<string>)
    requires pieces == Map(raw, Strip) && forall k :: 0 <= k < |raw| ==> ',' !in raw[k]
    ensures var peers := Filter(pieces, NonEmpty);
      && (forall k :: 0 <= k < |peers| ==> |peers[k]| > 0 && Trimmed(peers[k]) && ',' !in peers[k])
      && (forall p :: p in peers <==> p in pieces && |p| > 0)
      && (forall p :: multiset(peers)[p] == if |p| > 0 then multiset(pieces)[p] else 0)
      && IsSubsequence(peers, pieces)
  {
    FilterIsSubsequence(pieces, NonEmpty);
    FilterMembers(pieces, NonEmpty);
    forall p
      ensures multiset(Filter(pieces, NonEmpty))[p] == if |p| > 0 then multiset(pieces)[p] else 0
    {
      FilterCount(pieces, NonEmpty, p);
    }
    var peers := Filter(pieces, NonEmpty);
    forall k | 0 <= k < |peers|
      ensures |peers[k]| > 0 && Trimmed(peers[k]) && ',' !in peers[k]
    {
      assert peers[k] in pieces;
      var j :| 0 <= j < |pieces| && pieces[j] == peers[k];
      StripKeepsAbsent(raw[j], ',');
    }
  }

  /** Typing back a list of names separated by commas, each with any padding
      around it, gives the list of stripped names. */
  lemma ParsePeersJoin(names: seq<string>)
    requires forall k :: 0 <= k < |names| ==> ',' !in names[k] && |Strip(names[k])| > 0
    ensures ParsePeers(Join(names, ',')) == Map(names, Strip)
  {
    if |names| == 0 {
      assert Split("", ',') == [""];
      assert Map([""], Strip) == [Strip("")];
    } else {
      SplitJoin(names, ',');
      FilterAll(Map(names, Strip), NonEmpty);
    }
  }

  /** The peer text the page starts with. */
  const DefaultPeersText: string := "Portsmouth" + "," + " " + "University Hospitals Sussex" + "," + " " + "University Hospitals Dorset"

  /** The starting text gives the three names without their padding. */
  lemma ParsePeersDefault(text: string)
    requires text == DefaultPeersText
    ensures ParsePeers(text) == ["Portsmouth", "University Hospitals Sussex", "University Hospitals Dorset"]
  {
    var a, s1, s2 := "Portsmouth", "University Hospitals Sussex", "University Hospitals Dorset";
    DefaultJoin(text, a, s1, s2);
    DefaultPieces(a, s1, s2);
    ParsePeersThree(a, " " + s1, " " + s2);
  }

  lemma DefaultJoin(text: string, a: string, s1: string, s2: string)
    requires text == DefaultPeersText
    requires a == "Portsmouth" && s1 == "University Hospitals Sussex" && s2 == "University Hospitals Dorset"
    ensures text == Join([a, " " + s1, " " + s2], ',')
  {
    JoinThree(a, " " + s1, " " + s2, ',');
  }

  lemma ParsePeersThree(a: string, b: string, c: string)
    requires ',' !in a && ',' !in b && ',' !in c
    requires |Strip(a)| > 0 && |Strip(b)| > 0 && |Strip(c)| > 0
    ensures ParsePeers(Join([a, b, c], ',')) == [Strip(a), Strip(b), Strip(c)]
  {
    var names := [a, b, c];
    forall k | 0 <= k < |names|
      ensures ',' !in names[k] && |Strip(names[k])| > 0
    {
      assert names[k] == a || names[k] == b || names[k] == c;
    }
    ParsePeersJoin(names);
    MapThree(a, b, c, Strip);
  }

  lemma DefaultPieces(a: string, s1: string, s2: string)
    requires a == "Portsmouth" && s1 == "University Hospitals Sussex" && s2 == "University Hospitals Dorset"
    ensures ',' !in a && ',' !in " " + s1 && ',' !in " " + s2
    ensures Strip(a) == a && Strip(" " + s1) == s1 && Strip(" " + s2) == s2
  {
    assert ',' !in a && Trimmed(a);
    assert ',' !in s1 && Trimmed(s1);
    assert ',' !in s2 && Trimmed(s2);
    StripTrimmed(a);
    StripOneSpace(s1);
    StripOneSpace(s2);
  }

  /** One leading space is stripped from a trimmed name. */
  lemma StripOneSpace(name: string)
    requires Trimmed(name)
    ensures Strip(" " + name) == name
  {
    assert " " + name + "" == " " + name;
    StripPadded(" ", name, "");
  }

  /** Padding around a name and empty entries do not change the list. */
  lemma ParsePeersPadded(w1: string, name: string, w2: string)
    requires AllSpace(w1) && AllSpace(w2) && ',' !in w1 + name + w2
    requires |name| > 0 && Trimmed(name)
    ensures ParsePeers(w1 + name + w2 + ",") == [name]
  {
    PaddedPieces(w1, name, w2);
    assert [name, ""] == [name] + [""];
    FilterAppend([name], [""], NonEmpty);
  }

  lemma PaddedPieces(w1: string, name: string, w2: string)
    requires AllSpace(w1) && AllSpace(w2) && ',' !in w1 + name + w2 && Trimmed(name)
    ensures Map(Split(w1 + name + w2 + ",", ','), Strip) == [name, ""]
  {
    var s := w1 + name + w2;
    SplitAfterPiece(s, ',', "");
    assert s + [','] + "" == s + ",";
    assert Split("", ',') == [""];
    assert Split(s + ",", ',') == [s, ""];
    MapTwo(s, "", Strip);
    StripPadded(w1, name, w2);
    assert Strip("") == "";
  }

  const RttKeywords: seq<string> := ["provider", "incomplete", "52", "65", "78", "wait"]

  /** Line 261: the RTT table narrowed to exactly the columns that mention a
      keyword, in their order, every row kept with those cells. */
  function RttView(t: Table): (v: Table)
    ensures forall c :: c in v.columns <==> c in t.columns && MentionsAny(c, RttKeywords)
    ensures IsSubsequence(v.columns, t.columns)
    ensures |v.rows| == |t.rows|
    ensures forall i, c :: 0 <= i < |t.rows| && c in v.columns ==> Cell(v.rows[i], c) == Cell(t.rows[i], c)
  {
    Project(t, KeywordSelect(t.columns, RttKeywords))
  }
}
