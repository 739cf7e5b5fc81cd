/** The peer filter (nhse_scraper.py): keep the rows whose PROVIDER text,
    lower-cased, contains some lower-cased peer token. The A&E fetcher also
    strips each token; the ambulance and discharge fetchers do not. An empty
    peer list leaves the table as it is. */
module Peers {
  import opened Seqs
  import opened Text
  import opened Tables

  /** The canonical provider column every fetcher creates. */
  const ProviderColumn: string := "PROVIDER"

  /** `str(p).lower().strip()` (A&E) or `p.lower()` (ambulance, discharge). */
  function Token(p: string, strip: bool): string
  {
    if strip then Strip(Lower(p)) else Lower(p)
  }

  /** The peer's token occurs in the lower-cased text. */
  predicate TextHits(text: string, p: string, strip: bool)
  {
    Contains(Lower(text), Token(p, strip))
  }

  function HitsIn(text: string, strip: bool): string -> bool
  {
    (p: string) => TextHits(text, p, strip)
  }

  /** Some peer token occurs in the lower-cased text. */
  predicate TextMatches(text: string, peers: seq<string>, strip: bool)
  {
    Any(peers, HitsIn(text, strip))
  }

  /** The peer's token occurs in the row's lower-cased PROVIDER text. */
  predicate Hits(r: Row, p: string, strip: bool)
  {
    TextHits(Cell(r, ProviderColumn), p, strip)
  }

  /** Some peer token occurs in the row's lower-cased PROVIDER text. */
  predicate RowMatches(r: Row, peers: seq<string>, strip: bool)
  {
    TextMatches(Cell(r, ProviderColumn), peers, strip)
  }

  function Matcher(peers: seq<string>, strip: bool): Row -> bool
  {
    r => RowMatches(r, peers, strip)
  }

  /** `if peers: df = df[mask]` where `mask` ORs, over the peers, whether
      PROVIDER contains the token. */
  function PeerFilter(t: Table, peers: seq<string>, strip: bool): (u: Table)
    ensures u.columns == t.columns
    ensures |peers| == 0 ==> u == t
    ensures |peers| > 0 ==> forall r :: r in u.rows <==> r in t.rows && RowMatches(r, peers, strip)
    ensures IsSubsequence(u.rows, t.rows)
  {
    if |peers| == 0 then
      FilterAll(t.rows, (r: Row) => true);
      FilterIsSubsequence(t.rows, (r: Row) => true);
      t
    else
      FilterMembers(t.rows, Matcher(peers, strip));
      FilterIsSubsequence(t.rows, Matcher(peers, strip));
      Table(t.columns, Filter(t.rows, Matcher(peers, strip)))
  }

  /** Every copy of a matching row is kept and no copy of any other row:
      with the order property this pins the result down. */
  lemma PeerFilterCount(t: Table, peers: seq<string>, strip: bool, r: Row)
    requires |peers| > 0
    ensures multiset(PeerFilter(t, peers, strip).rows)[r] ==
      if RowMatches(r, peers, strip) then multiset(t.rows)[r] else 0
  {
    FilterCount(t.rows, Matcher(peers, strip), r);
  }

  /** `mask | df["PROVIDER"].str.lower().str.contains(token)`. */
  function OrMask(t: Table, mask: seq<bool>, token: string): (m: seq<bool>)
    requires |mask| == |t.rows|
    ensures |m| == |t.rows|
    ensures forall i :: 0 <= i < |t.rows| && mask[i] ==> m[i]
  {
    seq(|t.rows|, i requires 0 <= i < |t.rows| => mask[i] || Contains(Lower(Cell(t.rows[i], ProviderColumn)), token))
  }

  /** The mask after the first k peers marks exactly the rows they match. */
  ghost predicate MaskAfter(t: Table, peers: seq<string>, strip: bool, mask: seq<bool>)
  {
    |mask| == |t.rows| && forall i :: 0 <= i < |t.rows| ==> (mask[i] <==> RowMatches(t.rows[i], peers, strip))
  }

  /** One more peer matches a row exactly when the earlier peers or the
      new one do. */
  lemma RowMatchesExtend(r: Row, peers: seq<string>, k: nat, strip: bool)
    requires k < |peers|
    ensures RowMatches(r, peers[..k + 1], strip) <==> RowMatches(r, peers[..k], strip) || Hits(r, peers[k], strip)
  {
    AnyPrefixExtend(peers, k, HitsIn(Cell(r, ProviderColumn), strip));
  }

  lemma MaskStep(t: Table, peers: seq<string>, k: nat, strip: bool, mask: seq<bool>)
    requires k < |peers| && MaskAfter(t, peers[..k], strip, mask)
    ensures MaskAfter(t, peers[..k + 1], strip, OrMask(t, mask, Token(peers[k], strip)))
  {
    forall i | 0 <= i < |t.rows|
      ensures OrMask(t, mask, Token(peers[k], strip))[i] <==> RowMatches(t.rows[i], peers[..k + 1], strip)
    {
      RowMatchesExtend(t.rows[i], peers, k, strip);
      assert OrMask(t, mask, Token(peers[k], strip))[i] == (mask[i] || Hits(t.rows[i], peers[k], strip));
    }
  }

  lemma PeerFilterRows(t: Table, peers: seq<string>, strip: bool)
    requires |peers| > 0
    ensures PeerFilter(t, peers, strip) == Table(t.columns, Filter(t.rows, Matcher(peers, strip)))
  {
  }

  /** The mask loop over the peers, then the row selection. */
  method FilterPeers(t: Table, peers: seq<string>, strip: bool) returns (u: Table)
    ensures u == PeerFilter(t, peers, strip)
  {
    if |peers| == 0 {
      return t;
    }
    var n := |t.rows|;
    var mask: seq<bool> := seq(n, i => false);
    for k := 0 to |peers|
      invariant MaskAfter(t, peers[..k], strip, mask)
    {
      MaskStep(t, peers, k, strip, mask);
      mask := OrMask(t, mask, Token(peers[k], strip));
    }
    assert peers[..|peers|] == peers;
    var kept: seq<Row> := [];
    for i := 0 to n
      invariant kept == Filter(t.rows[..i], Matcher(peers, strip))
    {
      FilterAppend(t.rows[..i], [t.rows[i]], Matcher(peers, strip));
      assert t.rows[..i + 1] == t.rows[..i] + [t.rows[i]];
      if mask[i] {
        kept := kept + [t.rows[i]];
      }
    }
    assert t.rows[..n] == t.rows;
    PeerFilterRows(t, peers, strip);
    u := Table(t.columns, kept);
  }

  /** Without stripping, a token's leading space must match too: " x" does
      not select a provider that starts with "x" and has no space, while the
      stripped token "x" does. */
  lemma StripMatters(r: Row)
    requires Cell(r, ProviderColumn) == "xyz"
    ensures !RowMatches(r, [" x"], false)
    ensures RowMatches(r, [" x"], true)
  {
    assert Lower("xyz") == "xyz";
    assert Lower(" x") == " x";
    MissingCharNotContained("xyz", " x", ' ');
    assert Strip(" x") == "x" by {
      StripPadded(" ", "x", "");
      assert " " + "x" + "" == " x";
    }
    assert OccursAt("xyz", "x", 0);
    assert Token([" x"][0], true) == "x";
    assert Contains(Lower(Cell(r, ProviderColumn)), Token([" x"][0], true));
  }

  const Portsmouth: string := "Portsmouth NHS Trust"

  /** Both Portsmouth rows are kept for the token "portsmouth". */
  lemma PortsmouthKept(t: Table)
    requires forall i :: 0 <= i < |t.rows| ==> Cell(t.rows[i], ProviderColumn) == Portsmouth
    ensures PeerFilter(t, ["portsmouth"], true) == t
  {
    var low := Lower(Portsmouth);
    assert low[..10] == "portsmouth";
    assert OccursAt(low, "portsmouth", 0);
    assert Lower("portsmouth") == "portsmouth";
    StripTrimmed("portsmouth");
    assert Token(["portsmouth"][0], true) == "portsmouth";
    forall r | r in t.rows
      ensures Matcher(["portsmouth"], true)(r)
    {
      var i :| 0 <= i < |t.rows| && t.rows[i] == r;
      assert Contains(Lower(Cell(r, ProviderColumn)), Token(["portsmouth"][0], true));
    }
    FilterAll(t.rows, Matcher(["portsmouth"], true));
  }

  /** A provider text without an 'x' in either case is never matched by "oxford". */
  lemma OxfordNeedsX(r: Row)
    requires 'x' !in Cell(r, ProviderColumn) && 'X' !in Cell(r, ProviderColumn)
    ensures !RowMatches(r, ["oxford"], true)
  {
    var p := Cell(r, ProviderColumn);
    AbsentFromLower(p, 'x');
    assert Lower("oxford") == "oxford";
    StripTrimmed("oxford");
    assert Token(["oxford"][0], true) == "oxford";
    assert "oxford"[1] == 'x';
    MissingCharNotContained(Lower(p), "oxford", 'x');
  }

  /** No Portsmouth row is kept for the token "oxford". */
  lemma OxfordDropped(t: Table)
    requires forall i :: 0 <= i < |t.rows| ==> Cell(t.rows[i], ProviderColumn) == Portsmouth
    ensures PeerFilter(t, ["oxford"], true).rows == []
  {
    assert 'x' !in Portsmouth && 'X' !in Portsmouth;
    forall r | r in t.rows
      ensures !Matcher(["oxford"], true)(r)
    {
      var i :| 0 <= i < |t.rows| && t.rows[i] == r;
      OxfordNeedsX(r);
    }
    FilterNone(t.rows, Matcher(["oxford"], true));
  }
}
