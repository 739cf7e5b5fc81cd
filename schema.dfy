/** Schema inference for the fetched tables (nhse_scraper.py): which column
    names the provider, which columns are kept as metrics, which sheet of a
    workbook or member of an archive holds the provider table, and how a
    provider name is normalised. */
module Schema {
  import opened Wrappers
  import opened Errors
  import opened Seqs
  import opened Text
  import opened Tables

  // ---------------------------------------------------------------------
  // Provider column, A&E monthly file
  // ---------------------------------------------------------------------

  /** Lower-cased names accepted at once as the A&E provider column. */
  const AeSynonyms: seq<string> := ["provider code", "provider", "provider_name", "organisation"]

  /** The column used when no synonym matches. */
  const AeFallback: string := "Provider Name"

  const AeMissing: string := "Provider column not found in A&E monthly file."
  const AmbulanceMissing: string := "Provider column not found in Ambulance handover file."
  const DischargeMissing: string := "Provider column not found in Acute discharge file."

  predicate IsAeSynonym(c: string) { Lower(c) in AeSynonyms }

  /** The first column whose lower-cased name is a synonym; else the exact
      name "Provider Name" if present; else a schema error. */
  function ResolveAeProvider(cols: seq<string>): (r: Result<string, Error>)
    ensures r.Ok? <==> (exists c :: c in cols && IsAeSynonym(c)) || AeFallback in cols
    ensures r.Ok? ==> r.value in cols
    ensures (exists c :: c in cols && IsAeSynonym(c)) ==> IsFirst(cols, IsAeSynonym, r.value)
    ensures (forall c :: c in cols ==> !IsAeSynonym(c)) && AeFallback in cols ==> r == Ok(AeFallback)
    ensures r.Err? ==> r.error == SchemaMismatch(AeMissing)
  {
    match First(cols, IsAeSynonym)
    case Some(c) => Ok(c)
    case None => if AeFallback in cols then Ok(AeFallback) else Err(SchemaMismatch(AeMissing))
  }

  /** With the usual pair of columns the code column wins: "provider code"
      is itself a synonym, so "Provider Name" is only a fallback. */
  lemma AeCodeColumnWins()
    ensures ResolveAeProvider(["Provider Code", "Provider Name"]) == Ok("Provider Code")
  {
    assert Lower("Provider Code") == "provider code";
    assert IsAeSynonym("Provider Code");
  }

  // ---------------------------------------------------------------------
  // Provider column, ambulance and discharge workbooks
  // ---------------------------------------------------------------------

  predicate ProviderNotCode(c: string)
  {
    Contains(Lower(c), "provider") && !Contains(Lower(c), "code")
  }

  predicate MentionsOrganisation(c: string)
  {
    Contains(Lower(c), "organisation")
  }

  /** The first column mentioning "provider" but not "code"; else the first
      mentioning "organisation"; else a schema error. */
  function ResolveAmbulanceProvider(cols: seq<string>): (r: Result<string, Error>)
    ensures r.Ok? <==> exists c :: c in cols && (ProviderNotCode(c) || MentionsOrganisation(c))
    ensures (exists c :: c in cols && ProviderNotCode(c)) ==> IsFirst(cols, ProviderNotCode, r.value)
    ensures (forall c :: c in cols ==> !ProviderNotCode(c)) && (exists c :: c in cols && MentionsOrganisation(c)) ==>
      IsFirst(cols, MentionsOrganisation, r.value)
    ensures r.Err? ==> r.error == SchemaMismatch(AmbulanceMissing)
  {
    match First(cols, ProviderNotCode)
    case Some(c) => Ok(c)
    case None =>
      match First(cols, MentionsOrganisation)
      case Some(c) => Ok(c)
      case None => Err(SchemaMismatch(AmbulanceMissing))
  }

  /** The first column mentioning "provider" but not "code"; else a schema
      error (the discharge fetcher has no fallback). */
  function ResolveDischargeProvider(cols: seq<string>): (r: Result<string, Error>)
    ensures r.Ok? <==> exists c :: c in cols && ProviderNotCode(c)
    ensures r.Ok? ==> IsFirst(cols, ProviderNotCode, r.value)
    ensures r.Err? ==> r.error == SchemaMismatch(DischargeMissing)
  {
    match First(cols, ProviderNotCode)
    case Some(c) => Ok(c)
    case None => Err(SchemaMismatch(DischargeMissing))
  }

  // ---------------------------------------------------------------------
  // Sheet and archive member
  // ---------------------------------------------------------------------

  predicate MentionsProvider(name: string)
  {
    Contains(Lower(name), "provider")
  }

  predicate IsProviderCsv(name: string)
  {
    Contains(Lower(name), "provider") && EndsWith(Lower(name), ".csv")
  }

  /** The first sheet whose name mentions "provider", else the first sheet;
      a workbook without sheets fails on `sheet_names[0]`. */
  function ChooseSheet(names: seq<string>): (r: Result<string, Error>)
    ensures r.Err? <==> |names| == 0
    ensures (exists n :: n in names && MentionsProvider(n)) ==> IsFirst(names, MentionsProvider, r.value)
    ensures |names| > 0 && (forall n :: n in names ==> !MentionsProvider(n)) ==> r == Ok(names[0])
  {
    match FirstOrHead(names, MentionsProvider)
    case Some(n) => Ok(n)
    case None => Err(NoEntries("sheet"))
  }

  /** The first member mentioning "provider" and ending in ".csv" (both
      case-insensitive), else the first member; an empty archive fails on
      `namelist()[0]`. */
  function ChooseMember(names: seq<string>): (r: Result<string, Error>)
    ensures r.Err? <==> |names| == 0
    ensures (exists n :: n in names && IsProviderCsv(n)) ==> IsFirst(names, IsProviderCsv, r.value)
    ensures |names| > 0 && (forall n :: n in names ==> !IsProviderCsv(n)) ==> r == Ok(names[0])
  {
    match FirstOrHead(names, IsProviderCsv)
    case Some(n) => Ok(n)
    case None => Err(NoEntries("archive member"))
  }

  // ---------------------------------------------------------------------
  // Metric columns of the A&E output
  // ---------------------------------------------------------------------

  /** The fragments a kept A&E column name must contain; each is lower-cased
      before the comparison. */
  const AeKeywords: seq<string> := ["attend", "within 4", "emergency admissions", "% within 4"]

  function AeLoweredKeywords(): seq<string>
  {
    Map(AeKeywords, Lower)
  }

  /** The `wanted_cols` loop: exactly the columns that mention a (lower-cased)
      keyword, in column order. */
  method AeWantedColumns(cols: seq<string>) returns (wanted: seq<string>)
    ensures wanted == KeywordSelect(cols, AeLoweredKeywords())
    ensures forall c :: c in wanted <==> c in cols && MentionsAny(c, AeLoweredKeywords())
  {
    var keys := AeLoweredKeywords();
    wanted := [];
    for i := 0 to |cols|
      invariant wanted == Filter(cols[..i], Mentions(keys))
    {
      FilterAppend(cols[..i], [cols[i]], Mentions(keys));
      assert cols[..i + 1] == cols[..i] + [cols[i]];
      if MentionsAny(cols[i], keys) {
        wanted := wanted + [cols[i]];
      }
    }
    assert cols[..|cols|] == cols;
  }

  /** Neither column the A&E output always leads with mentions a keyword, so
      neither is repeated among the metric columns. */
  lemma LeadingColumnsAreNotMetrics()
    ensures !MentionsAny("PROVIDER", AeLoweredKeywords())
    ensures !MentionsAny("period", AeLoweredKeywords())
  {
    NoKeywordWithout("PROVIDER");
    NoKeywordWithout("period");
  }

  /** A name with neither a 't' nor a 'g' in any case mentions no keyword:
      each keyword has one of the two. */
  lemma NoKeywordWithout(c: string)
    requires 't' !in c && 'T' !in c && 'g' !in c && 'G' !in c
    ensures !MentionsAny(c, AeLoweredKeywords())
  {
    var keys := AeLoweredKeywords();
    AbsentFromLower(c, 't');
    AbsentFromLower(c, 'g');
    assert |keys| == 4;
    assert keys[0] == Lower("attend") && keys[1] == Lower("within 4");
    assert keys[2] == Lower("emergency admissions") && keys[3] == Lower("% within 4");
    assert keys[0][1] == 't' && keys[1][2] == 't' && keys[2][4] == 'g' && keys[3][4] == 't';
    MissingCharNotContained(Lower(c), keys[0], 't');
    MissingCharNotContained(Lower(c), keys[1], 't');
    MissingCharNotContained(Lower(c), keys[2], 'g');
    MissingCharNotContained(Lower(c), keys[3], 't');
  }

  // ---------------------------------------------------------------------
  // normalise_provider_name
  // ---------------------------------------------------------------------

  const FoundationTrust: string := "NHS FOUNDATION TRUST"
  const NhsTrust: string := "NHS TRUST"

  /** Remove the two legal-entity suffixes (case-sensitively, in this
      order), strip the ends, lower-case. */
  function NormaliseProviderName(s: string): (r: string)
    ensures NoUpper(r) && Trimmed(r)
  {
    var stripped := Strip(RemoveAll(RemoveAll(s, FoundationTrust), NhsTrust));
    LowerKeepsTrimmed(stripped);
    Lower(stripped)
  }

  /** A normalised name is a fixed point of normalisation. */
  lemma NormaliseIdempotent(s: string)
    ensures NormaliseProviderName(NormaliseProviderName(s)) == NormaliseProviderName(s)
  {
    var n := NormaliseProviderName(s);
    assert IsUpper(FoundationTrust[0]) && IsUpper(NhsTrust[0]);
    RemoveUpperFromLower(n, FoundationTrust);
    RemoveUpperFromLower(n, NhsTrust);
    StripTrimmed(n);
    assert Lower(n) == n;
  }

  /** Removal is case-sensitive: a trimmed name without either upper-case
      suffix (such as "Portsmouth NHS Trust") is only lower-cased. */
  lemma NormaliseWithoutSuffix(s: string)
    requires !Contains(s, FoundationTrust) && !Contains(s, NhsTrust) && Trimmed(s)
    ensures NormaliseProviderName(s) == Lower(s)
  {
    RemoveAllAbsent(s, FoundationTrust);
    RemoveAllAbsent(s, NhsTrust);
    StripTrimmed(s);
  }

  /** "NHS TRUST" has its only 'N' in front, so it cannot overlap itself. */
  lemma NhsTrustBorderFree(p: string)
    requires p == NhsTrust
    ensures BorderFree(p)
  {
    assert forall k :: 0 < k < |p| ==> p[k] != 'N';
    forall j | 0 < j < |p|
      ensures p[j..] != p[..|p| - j]
    {
      assert p[j..][0] != p[..|p| - j][0];
    }
  }

  /** Every inner 'N' of "NHS FOUNDATION TRUST" is followed by something
      other than 'H', so it cannot overlap itself either. */
  lemma FoundationTrustBorderFree(p: string)
    requires p == FoundationTrust
    ensures BorderFree(p)
  {
    assert forall k :: 0 < k < |p| && p[k] == 'N' ==> k + 1 < |p| && p[k + 1] != 'H';
    forall j | 0 < j < |p|
      ensures p[j..] != p[..|p| - j]
    {
      if p[j] != 'N' {
        assert p[j..][0] != p[..|p| - j][0];
      } else {
        assert p[j..][1] != p[..|p| - j][1];
      }
    }
  }

  /** When the removals leave a trimmed name and one trailing space, the
      result is that name lower-cased. */
  lemma NormaliseRemoved(name: string, u: string)
    requires Trimmed(u) && RemoveAll(RemoveAll(name, FoundationTrust), NhsTrust) == u + " "
    ensures NormaliseProviderName(name) == Lower(u)
  {
    assert "" + u + " " == u + " ";
    StripPadded("", u, " ");
  }

  /** A trimmed name followed by " NHS TRUST" loses that suffix, provided the
      suffix does not already occur in the name and space before it, and
      the foundation-trust suffix occurs nowhere. */
  lemma NormaliseDropsNhsTrust(u: string)
    requires Trimmed(u) && !Contains(u + " ", NhsTrust) && !Contains(u + " " + NhsTrust, FoundationTrust)
    ensures NormaliseProviderName(u + " " + NhsTrust) == Lower(u)
  {
    NhsTrustBorderFree(NhsTrust);
    RemoveAbsentThenSuffix(u + " ", FoundationTrust, NhsTrust);
    NormaliseRemoved(u + " " + NhsTrust, u);
  }

  /** A trimmed name followed by " NHS FOUNDATION TRUST" loses that suffix,
      provided neither suffix occurs in the name and space before it. */
  lemma NormaliseDropsFoundationTrust(u: string)
    requires Trimmed(u) && !Contains(u + " ", FoundationTrust) && !Contains(u + " ", NhsTrust)
    ensures NormaliseProviderName(u + " " + FoundationTrust) == Lower(u)
  {
    FoundationTrustBorderFree(FoundationTrust);
    RemoveSuffixThenAbsent(u + " ", FoundationTrust, NhsTrust);
    NormaliseRemoved(u + " " + FoundationTrust, u);
  }

  const PortsmouthTrust: string := "PORTSMOUTH" + " HOSPITALS" + " " + NhsTrust

  /** "PORTSMOUTH HOSPITALS NHS TRUST" normalises to "portsmouth hospitals". */
  lemma NormalisePortsmouthHospitals(name: string)
    requires name == PortsmouthTrust
    ensures NormaliseProviderName(name) == "portsmouth" + " hospitals"
  {
    var u := "PORTSMOUTH" + " HOSPITALS";
    assert Trimmed(u) && Lower(u) == "portsmouth" + " hospitals" && !Contains(u + " ", NhsTrust) && !Contains(u + " " + NhsTrust, FoundationTrust) by {
      PortsmouthHospitalsFacts(u);
    }
    NormaliseDropsNhsTrust(u);
  }

  const SussexTrust: string := "UNIVERSITY" + " HOSPITALS" + " SUSSEX" + " " + FoundationTrust

  /** "UNIVERSITY HOSPITALS SUSSEX NHS FOUNDATION TRUST", whose name has an
      'N' before the suffix, normalises to "university hospitals sussex". */
  lemma NormaliseSussex(name: string)
    requires name == SussexTrust
    ensures NormaliseProviderName(name) == "university" + " hospitals" + " sussex"
  {
    var u := "UNIVERSITY" + " HOSPITALS" + " SUSSEX";
    assert Trimmed(u) && Lower(u) == "university" + " hospitals" + " sussex" && !Contains(u + " ", FoundationTrust) && !Contains(u + " ", NhsTrust) by {
      SussexFacts(u);
    }
    NormaliseDropsFoundationTrust(u);
  }

  lemma SussexFacts(u: string)
    requires u == "UNIVERSITY" + " HOSPITALS" + " SUSSEX"
    ensures Trimmed(u) && Lower(u) == "university" + " hospitals" + " sussex"
    ensures !Contains(u + " ", FoundationTrust) && !Contains(u + " ", NhsTrust)
  {
    SussexLacksSuffixes(u + " ");
    SussexLower("UNIVERSITY", " HOSPITALS", " SUSSEX");
  }

  lemma SussexLower(a: string, b: string, c: string)
    requires a == "UNIVERSITY" && b == " HOSPITALS" && c == " SUSSEX"
    ensures Trimmed(a + b + c) && Lower(a + b + c) == "university" + " hospitals" + " sussex"
  {
    LowerAppend(a + b, c);
    LowerAppend(a, b);
    assert Lower(a) == "university" by { LowerWord(a, "university"); }
    assert Lower(b) == " hospitals" by { LowerWord(b, " hospitals"); }
    assert Lower(c) == " sussex" by { LowerWord(c, " sussex"); }
    assert (a + b + c)[0] == 'U' && (a + b + c)[|a + b + c| - 1] == 'X';
  }

  /** No "NH" pair, so neither suffix occurs. */
  lemma SussexLacksSuffixes(v: string)
    requires v == "UNIVERSITY" + " HOSPITALS" + " SUSSEX" + " "
    ensures !Contains(v, FoundationTrust) && !Contains(v, NhsTrust)
  {
    assert forall k :: 0 <= k < |v| - 1 ==> !(v[k] == 'N' && v[k + 1] == 'H');
    assert FoundationTrust[0] == 'N' && FoundationTrust[1] == 'H';
    assert NhsTrust[0] == 'N' && NhsTrust[1] == 'H';
    MissingPairNotContained(v, FoundationTrust);
    MissingPairNotContained(v, NhsTrust);
  }

  lemma LowerWord(w: string, l: string)
    requires |w| == |l| && forall k :: 0 <= k < |w| ==> LowerChar(w[k]) == l[k]
    ensures Lower(w) == l
  {
  }

  lemma PortsmouthHospitalsFacts(u: string)
    requires u == "PORTSMOUTH" + " HOSPITALS"
    ensures Trimmed(u) && Lower(u) == "portsmouth" + " hospitals"
    ensures !Contains(u + " ", NhsTrust) && !Contains(u + " " + NhsTrust, FoundationTrust)
  {
    PortsmouthLacksSuffixes(u + " ");
    PortsmouthLower("PORTSMOUTH", " HOSPITALS");
  }

  lemma PortsmouthLower(a: string, b: string)
    requires a == "PORTSMOUTH" && b == " HOSPITALS"
    ensures Trimmed(a + b) && Lower(a + b) == "portsmouth" + " hospitals"
  {
    LowerAppend(a, b);
    assert Lower(a) == "portsmouth" by { LowerWord(a, "portsmouth"); }
    assert Lower(b) == " hospitals" by { LowerWord(b, " hospitals"); }
    assert (a + b)[0] == 'P' && (a + b)[|a + b| - 1] == 'S';
  }

  /** No 'N' before the suffix and no 'F' anywhere. */
  lemma PortsmouthLacksSuffixes(v: string)
    requires v == "PORTSMOUTH" + " HOSPITALS" + " "
    ensures !Contains(v, NhsTrust) && !Contains(v + NhsTrust, FoundationTrust)
  {
    assert 'N' !in v && 'F' !in v;
    assert NhsTrust[0] == 'N' && 'F' !in NhsTrust;
    MissingCharNotContained(v, NhsTrust, 'N');
    assert FoundationTrust[4] == 'F' && 'F' !in v + NhsTrust;
    MissingCharNotContained(v + NhsTrust, FoundationTrust, 'F');
  }
}
