/** The search bar run against the sample catalog. */
module SearchExamples {
  import opened Text
  import opened Catalog
  import opened SearchBar

  /** Lower-cased names and types of the three sample restaurants. */
  lemma FirstLowered(r: Restaurant)
    requires r == Restaurants[0]
    ensures Lower(r.name) == "phở thìn bờ hồ" && Lower(r.kind) == "phở"
  {
  }

  lemma SecondLowered(r: Restaurant)
    requires r == Restaurants[1]
    ensures Lower(r.name) == "bún chả hương liên" && Lower(r.kind) == "bún chả"
  {
  }

  lemma ThirdLowered(r: Restaurant)
    requires r == Restaurants[2]
    ensures Lower(r.name) == "bánh cuốn bà hoành" && Lower(r.kind) == "bánh cuốn"
  {
  }

  /** `Matches` once the lower-cased fields are known. */
  lemma MatchesLowered(r: Restaurant, t: string, name: string, kind: string, q: string)
    requires Lower(r.name) == name && Lower(r.kind) == kind && Lower(t) == q
    ensures Matches(r, t) <==> Contains(name, q) || Contains(kind, q)
  {
  }

  /** One step of the filter: the head is kept exactly when it matches. */
  lemma FilterStep(c: seq<Restaurant>, t: string)
    requires c != []
    ensures FilterByTerm(c, t) == (if Matches(c[0], t) then [c[0]] else []) + FilterByTerm(c[1..], t)
  {
  }

  /** The filter over a three-entry catalog, one entry at a time. */
  lemma FilterThree(c: seq<Restaurant>, t: string)
    requires |c| == 3
    ensures FilterByTerm(c, t) ==
      (if Matches(c[0], t) then [c[0]] else []) +
      (if Matches(c[1], t) then [c[1]] else []) +
      (if Matches(c[2], t) then [c[2]] else [])
  {
    FilterStep(c, t);
    FilterStep(c[1..], t);
    FilterStep(c[1..][1..], t);
    assert c[1..][1..][1..] == [];
    assert c[1..][0] == c[1] && c[1..][1..][0] == c[2];
  }

  lemma PhoFound(r: Restaurant, t: string)
    requires r == Restaurants[0] && t == "phở"
    ensures Matches(r, t)
  {
    FirstLowered(r);
    var name := "phở thìn bờ hồ";
    assert name[..3] == "phở";
    assert OccursAt(name, "phở", 0);
    MatchesLowered(r, t, name, "phở", "phở");
  }

  /** A restaurant cannot match a query holding a character that neither its
      lower-cased name nor its lower-cased type contains. */
  lemma NoMatchByChar(r: Restaurant, t: string, j: int)
    requires 0 <= j < |t| && LowerChar(t[j]) !in Lower(r.name) && LowerChar(t[j]) !in Lower(r.kind)
    ensures !Matches(r, t)
  {
    MissingCharNotContained(Lower(r.name), Lower(t), j);
    MissingCharNotContained(Lower(r.kind), Lower(t), j);
  }

  lemma PhoMissesSecond(r: Restaurant)
    requires r == Restaurants[1]
    ensures !Matches(r, "phở")
  {
    SecondLowered(r);
    assert LowerChar("phở"[2]) == 'ở';
    assert 'ở' !in "bún chả hương liên" && 'ở' !in "bún chả";
    NoMatchByChar(r, "phở", 2);
  }

  lemma PhoMissesThird(r: Restaurant)
    requires r == Restaurants[2]
    ensures !Matches(r, "phở")
  {
    ThirdLowered(r);
    assert LowerChar("phở"[2]) == 'ở';
    assert 'ở' !in "bánh cuốn bà hoành" && 'ở' !in "bánh cuốn";
    NoMatchByChar(r, "phở", 2);
  }

  /** The query "phở" finds the first restaurant and no other, and the list
      is displayed. */
  lemma PhoQuery()
    ensures var s := Type(Initial, "phở", Restaurants);
      s.results == [Restaurants[0]] && ShowResultList(s) && !ShowNoResults(s)
  {
    PhoQueryOn(Restaurants, "phở");
  }

  lemma PhoQueryOn(c: seq<Restaurant>, t: string)
    requires c == Restaurants && t == "phở"
    ensures var s := Type(Initial, t, c);
      s.results == [c[0]] && ShowResultList(s) && !ShowNoResults(s)
  {
    PhoFilter(c, t);
    assert !IsSpace(t[0]);
  }

  lemma PhoFilter(c: seq<Restaurant>, t: string)
    requires c == Restaurants && t == "phở"
    ensures FilterByTerm(c, t) == [c[0]]
  {
    PhoFound(c[0], t);
    PhoMissesSecond(c[1]);
    PhoMissesThird(c[2]);
    FilterThree(c, t);
  }

  /** The query is matched as typed: "phở" followed by a no-break space is not
      blank, so the search runs, but nothing contains the space, so the list is
      empty and "no results" is shown although the trimmed query finds a match. */
  lemma UntrimmedQuery()
    ensures var s := Type(Initial, "phở\U{00A0}", Restaurants);
      s.showResults && s.results == [] && ShowNoResults(s)
    ensures Trim("phở\U{00A0}") == "phở" && FilterByTerm(Restaurants, "phở") == [Restaurants[0]]
  {
    UntrimmedQueryOn(Restaurants, "phở\U{00A0}");
    PhoFilter(Restaurants, "phở");
  }

  lemma UntrimmedQueryOn(c: seq<Restaurant>, t: string)
    requires c == Restaurants && t == "phở\U{00A0}"
    ensures var s := Type(Initial, t, c);
      s.showResults && s.results == [] && ShowNoResults(s)
    ensures Trim(t) == "phở"
  {
    UntrimmedFilter(c, t);
    UntrimmedTrim(t);
  }

  lemma UntrimmedTrim(t: string)
    requires t == "phở\U{00A0}"
    ensures Trim(t) == "phở"
  {
    assert !IsSpace(t[0]);
    assert TrimStart(t) == t;
    assert t[..3] == "phở";
    assert TrimEnd(t) == TrimEnd(t[..3]);
  }

  lemma UntrimmedFilter(c: seq<Restaurant>, t: string)
    requires c == Restaurants && t == "phở\U{00A0}"
    ensures FilterByTerm(c, t) == []
  {
    NbspMissesFirst(c[0], t);
    NbspMissesSecond(c[1], t);
    NbspMissesThird(c[2], t);
    FilterThree(c, t);
  }

  lemma NbspMissesFirst(r: Restaurant, t: string)
    requires r == Restaurants[0] && t == "phở\U{00A0}"
    ensures !Matches(r, t)
  {
    FirstLowered(r);
    NbspMisses(r, t, "phở thìn bờ hồ", "phở");
  }

  lemma NbspMissesSecond(r: Restaurant, t: string)
    requires r == Restaurants[1] && t == "phở\U{00A0}"
    ensures !Matches(r, t)
  {
    SecondLowered(r);
    NbspMisses(r, t, "bún chả hương liên", "bún chả");
  }

  lemma NbspMissesThird(r: Restaurant, t: string)
    requires r == Restaurants[2] && t == "phở\U{00A0}"
    ensures !Matches(r, t)
  {
    ThirdLowered(r);
    NbspMisses(r, t, "bánh cuốn bà hoành", "bánh cuốn");
  }

  /** The no-break space at index 3 of the query is in no lower-cased name or type. */
  lemma NbspMisses(r: Restaurant, t: string, name: string, kind: string)
    requires |t| == 4 && t[3] == '\U{00A0}'
    requires Lower(r.name) == name && Lower(r.kind) == kind
    requires '\U{00A0}' !in name && '\U{00A0}' !in kind
    ensures !Matches(r, t)
  {
    NoMatchByChar(r, t, 3);
  }
}
