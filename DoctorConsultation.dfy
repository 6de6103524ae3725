/**
 * The doctor list of the consultation screen: a category tab and a search
 * box narrow the hard-coded list of doctors, keeping their order.
 */
module DoctorConsultation {
  import opened Text

  /** A doctor card's data (the avatar image is not modelled). */
  datatype Doctor = Doctor(
    id: string, name: string, specialty: string, experience: string,
    rating: string, location: string, nextAvailable: string, price: string)

  /** The tab that imposes no restriction. */
  const AllCategory: string := "All"

  /** The category tabs, in display order. */
  const Categories: seq<string> := ["All", "General", "Cardiologist", "Paediatrics"]

  const Chen: Doctor := Doctor("1", "Dr. Michael Chen", "General Physician",
    "12 years experience", "4.8", "Jumeirah Medical Center", "Today, 4:30 PM", "AED 180")
  const Williams: Doctor := Doctor("2", "Dr. Sarah Williams", "Cardiologist",
    "15 years experience", "4.8", "Dubai Healthcare City", "Today, 2:00 PM", "AED 200")
  const Thompson: Doctor := Doctor("3", "Dr. Emma Thompson", "Pediatrician",
    "18 years experience", "4.9", "Dubai Marina Clinic", "Tomorrow", "AED 250")
  const Kael: Doctor := Doctor("4", "Dr. Adam Kael", "Neurologist",
    "21 years experience", "4.6", "NeuroVista Center", "Tomorrow", "AED 281")

  /** The screen's doctors, in display order. */
  const Doctors: seq<Doctor> := [Chen, Williams, Thompson, Kael]

  /** `matchesCategory`: "All", or the lower-cased specialty contains the lower-cased category. */
  predicate MatchesCategory(d: Doctor, category: string) {
    category == AllCategory || Includes(Lower(d.specialty), Lower(category))
  }

  /** `matchesSearch`: the lower-cased search text occurs in the lower-cased name or specialty. */
  predicate MatchesSearch(d: Doctor, search: string) {
    Includes(Lower(d.name), Lower(search)) || Includes(Lower(d.specialty), Lower(search))
  }

  /** The test each doctor must pass to be listed. */
  predicate Shown(d: Doctor, category: string, search: string) {
    MatchesCategory(d, category) && MatchesSearch(d, search)
  }

  /**
   * `filteredDoctors`: the doctors that pass both tests, in their original
   * order; a doctor is listed exactly when it is in the input and passes.
   */
  function FilterDoctors(ds: seq<Doctor>, category: string, search: string): (r: seq<Doctor>)
    ensures IsSubsequence(r, ds)
    ensures forall d :: d in r <==> d in ds && Shown(d, category, search)
    ensures r == [] <==> forall d | d in ds :: !Shown(d, category, search)
    ensures |r| <= |ds|
  {
    if ds == [] then []
    else
      var rest := FilterDoctors(ds[1..], category, search);
      assert forall d :: d in ds <==> d == ds[0] || d in ds[1..] by {
        assert ds == [ds[0]] + ds[1..];
      }
      if Shown(ds[0], category, search) then [ds[0]] + rest else rest
  }

  /** Empty search text matches every doctor. */
  lemma EmptySearchMatches(d: Doctor)
    ensures MatchesSearch(d, "")
  {
    IncludesEmpty(Lower(d.name));
  }

  /** With the "All" tab and an empty search, every doctor is listed, in order. */
  lemma {:induction false} AllAndEmptyKeepsEverything(ds: seq<Doctor>)
    ensures FilterDoctors(ds, AllCategory, "") == ds
  {
    if ds != [] {
      EmptySearchMatches(ds[0]);
      AllAndEmptyKeepsEverything(ds[1..]);
    }
  }

  /** The screen's first view lists all four doctors in their original order. */
  lemma InitialListing()
    ensures Categories[0] == AllCategory
    ensures FilterDoctors(Doctors, Categories[0], "") == [Chen, Williams, Thompson, Kael]
  {
    AllAndEmptyKeepsEverything(Doctors);
  }

  /** A search text that contains another one matches only doctors the shorter one matches. */
  lemma NarrowerSearch(d: Doctor, search: string, longer: string)
    requires Includes(longer, search)
    requires MatchesSearch(d, longer)
    ensures MatchesSearch(d, search)
  {
    LowerIncludes(longer, search);
    if Includes(Lower(d.name), Lower(longer)) {
      IncludesTransitive(Lower(d.name), Lower(longer), Lower(search));
    } else {
      IncludesTransitive(Lower(d.specialty), Lower(longer), Lower(search));
    }
  }

  /** When every doctor shown for `longer` is also shown for `search`, filtering twice is filtering once. */
  lemma {:induction false} FilterThroughCoarser(ds: seq<Doctor>, category: string, search: string, longer: string)
    requires forall d | d in ds :: MatchesSearch(d, longer) ==> MatchesSearch(d, search)
    ensures FilterDoctors(FilterDoctors(ds, category, search), category, longer)
         == FilterDoctors(ds, category, longer)
  {
    if ds != [] {
      assert forall d | d in ds[1..] :: d in ds;
      FilterThroughCoarser(ds[1..], category, search, longer);
      var q := FilterDoctors(ds[1..], category, search);
      if Shown(ds[0], category, search) {
        assert ([ds[0]] + q)[1..] == q;
      }
    }
  }

  /**
   * Typing more never brings a doctor back: if `search` occurs in `longer`,
   * the list for `longer` is an order-preserving part of the list for `search`.
   */
  lemma FilterMonotone(ds: seq<Doctor>, category: string, search: string, longer: string)
    requires Includes(longer, search)
    ensures IsSubsequence(FilterDoctors(ds, category, longer), FilterDoctors(ds, category, search))
  {
    forall d | d in ds && MatchesSearch(d, longer) ensures MatchesSearch(d, search) {
      NarrowerSearch(d, search, longer);
    }
    FilterThroughCoarser(ds, category, search, longer);
  }

  /**
   * The "Paediatrics" tab (the last category) lists nobody: the paediatric
   * doctor's specialty is spelt "Pediatrician", which does not contain
   * "paediatrics".
   */
  lemma PaediatricsListsNobody(search: string)
    ensures Categories[3] == "Paediatrics"
    ensures FilterDoctors(Doctors, Categories[3], search) == []
  {
    NoPaediatrics(Chen.specialty);
    NoPaediatrics(Williams.specialty);
    NoPaediatrics(Thompson.specialty);
    NoPaediatrics(Kael.specialty);
  }

  /** A string in which no `p` is followed by `a` does not contain "paediatrics". */
  lemma NoPaAfterP(s: string)
    requires forall i | 0 <= i < |s| - 1 :: s[i] == 'p' ==> s[i + 1] != 'a'
    ensures !Includes(s, "paediatrics")
  {
    forall i | 0 <= i <= |s| - 11 ensures !OccursAt(s, "paediatrics", i) {
      if s[i] == 'p' {
        assert s[i..i + 11][1] != 'a';
      }
    }
  }

  /**
   * A text in which no "p" (of either case) is followed by an "a" (of either
   * case) does not contain "paediatrics" once lower-cased.
   */
  lemma NoPaediatrics(specialty: string)
    requires forall i | 0 <= i < |specialty| - 1 ::
      LowerChar(specialty[i]) == 'p' ==> LowerChar(specialty[i + 1]) != 'a'
    ensures !Includes(Lower(specialty), Lower("Paediatrics"))
  {
    assert Lower("Paediatrics") == "paediatrics";
    NoPaAfterP(Lower(specialty));
  }
}
