/** `find_plex`: picks the library entry that satisfies a desired
    (title, year), trying three rules in order and taking the first entry
    that meets the first rule any entry meets. */
module Matcher {
  import opened Wrappers
  import opened Media

  /** One search result of the library. `year` is None when the entry has no
      `year` attribute (or it is unset). */
  datatype Candidate = Candidate(title: string, year: Option<int>)

  /** Rule 1: same year and the same title once lowered. */
  predicate ExactHit(m: Candidate, title: string, year: int, c: Collation) {
    m.year == Some(year) && c.lower(m.title) == c.lower(title)
  }

  /** Rule 2: the same title once lowered, whatever the year. */
  predicate TitleHit(m: Candidate, title: string, c: Collation) {
    c.lower(m.title) == c.lower(title)
  }

  /** Rule 3: same year and lowered titles similar beyond the 0.9 ratio. */
  predicate FuzzyHit(m: Candidate, title: string, year: int, c: Collation) {
    m.year == Some(year) && c.similar(c.lower(m.title), c.lower(title))
  }

  /** The first position at or after `from` whose element satisfies `p`. */
  function FirstWhere(s: seq<Candidate>, p: Candidate -> bool, from: nat): (r: Option<nat>)
    requires from <= |s|
    ensures r.Some? ==> from <= r.value < |s|
    decreases |s| - from
  {
    if from == |s| then None
    else if p(s[from]) then Some(from)
    else FirstWhere(s, p, from + 1)
  }

  /** The search finds the first match at or after `from`, and None means
      there is none. */
  lemma {:induction false} FirstWhereSpec(s: seq<Candidate>, p: Candidate -> bool, from: nat)
    requires from <= |s|
    ensures var r := FirstWhere(s, p, from);
      && (r.Some? ==> p(s[r.value]) && forall j :: from <= j < r.value ==> !p(s[j]))
      && (r.None? ==> forall j :: from <= j < |s| ==> !p(s[j]))
    decreases |s| - from
  {
    if from < |s| && !p(s[from]) {
      FirstWhereSpec(s, p, from + 1);
    }
  }

  /** The position of the chosen library entry, or None when nothing matches
      or the search raised. */
  function FindPlex(results: Option<seq<Candidate>>, title: string, year: int, c: Collation): (r: Option<nat>)
    ensures r.Some? ==> results.Some? && r.value < |results.value|
  {
    match results
    case None => None
    case Some(ms) =>
      var exact := FirstWhere(ms, m => ExactHit(m, title, year, c), 0);
      if exact.Some? then exact
      else
        var named := FirstWhere(ms, m => TitleHit(m, title, c), 0);
        if named.Some? then named
        else FirstWhere(ms, m => FuzzyHit(m, title, year, c), 0)
  }

  /** The three rules in order: the first entry meeting rule 1 if any does,
      else the first meeting rule 2 if any does, else the first meeting rule
      3; None exactly when no entry meets any rule (a rule 1 entry also
      meets rule 2), and always None when the search raised. */
  lemma FindPlexSpec(results: Option<seq<Candidate>>, title: string, year: int, c: Collation)
    ensures var r := FindPlex(results, title, year, c);
      && (results.None? ==> r.None?)
      && (results.Some? ==>
            var ms := results.value;
            (r.None? <==> forall j :: 0 <= j < |ms| ==> !TitleHit(ms[j], title, c) && !FuzzyHit(ms[j], title, year, c)))
      && (r.Some? ==>
            var ms := results.value; var k := r.value;
            || (ExactHit(ms[k], title, year, c) && forall j :: 0 <= j < k ==> !ExactHit(ms[j], title, year, c))
            || ((forall j :: 0 <= j < |ms| ==> !ExactHit(ms[j], title, year, c))
                && TitleHit(ms[k], title, c) && forall j :: 0 <= j < k ==> !TitleHit(ms[j], title, c))
            || ((forall j :: 0 <= j < |ms| ==> !TitleHit(ms[j], title, c))
                && FuzzyHit(ms[k], title, year, c) && forall j :: 0 <= j < k ==> !FuzzyHit(ms[j], title, year, c)))
  {
    if results.Some? {
      var ms := results.value;
      FirstWhereSpec(ms, m => ExactHit(m, title, year, c), 0);
      FirstWhereSpec(ms, m => TitleHit(m, title, c), 0);
      FirstWhereSpec(ms, m => FuzzyHit(m, title, year, c), 0);
    }
  }

  /** The year rule: a chosen entry whose year differs from the desired one
      (or is missing) was chosen on its title alone, so its lowered title
      equals the desired one; similarity alone never crosses a year. */
  lemma YearMismatchNeedsSameTitle(results: Option<seq<Candidate>>, title: string, year: int, c: Collation)
    requires FindPlex(results, title, year, c).Some?
    ensures var ms := results.value; var k := FindPlex(results, title, year, c).value;
      ms[k].year != Some(year) ==> c.lower(ms[k].title) == c.lower(title)
  {
    FindPlexSpec(results, title, year, c);
  }

  /** Rule 1 wins over everything: when some entry has the year and the
      title, the first such entry is chosen, even if an earlier entry has the
      title under another year. */
  lemma ExactMatchPreferred(ms: seq<Candidate>, title: string, year: int, c: Collation, k: nat)
    requires k < |ms| && ExactHit(ms[k], title, year, c)
    requires forall j :: 0 <= j < k ==> !ExactHit(ms[j], title, year, c)
    ensures FindPlex(Some(ms), title, year, c) == Some(k)
  {
    FirstWhereSpec(ms, m => ExactHit(m, title, year, c), 0);
  }

  /** The tie-break rule: when no entry has the desired title once lowered,
      an entry is accepted only under the desired year and only when its
      lowered title is similar, the first such entry wins, and nothing is
      accepted exactly when no entry of that year is similar. */
  lemma FuzzyNeedsSameYear(ms: seq<Candidate>, title: string, year: int, c: Collation)
    requires forall j :: 0 <= j < |ms| ==> !TitleHit(ms[j], title, c)
    ensures FindPlex(Some(ms), title, year, c).None? <==>
      forall j :: 0 <= j < |ms| && ms[j].year == Some(year) ==> !c.similar(c.lower(ms[j].title), c.lower(title))
    ensures FindPlex(Some(ms), title, year, c).Some? ==>
      var k := FindPlex(Some(ms), title, year, c).value;
      && ms[k].year == Some(year) && c.similar(c.lower(ms[k].title), c.lower(title))
      && forall j :: 0 <= j < k ==> !FuzzyHit(ms[j], title, year, c)
  {
    FindPlexSpec(Some(ms), title, year, c);
  }
}
